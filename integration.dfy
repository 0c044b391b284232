/** The integration rule that forces and torques share, written once and parameterised by
    the derivative chain it acts on. Per axis the applied vector `F` gives the acceleration
    `F[i] / mass`; an order-1 body then accumulates it into its velocity over one explicit
    Euler step, while an order-2 body has its stored acceleration overwritten by it. */
module Integration {
  import opened Vectors
  import opened Kinematics

  /** Newton's second law, `a = F / m`: the acceleration the vector `f` gives a body of mass `mass`. */
  function Acceleration(f: Vector, mass: real): (a: Vector)
    requires mass > 0.0
    ensures |a| == |f|
    ensures forall i :: 0 <= i < |f| ==> mass * a[i] == f[i]
  {
    Div(f, mass)
  }

  /** The order-1 rule: the velocity of chain `c` takes one explicit Euler step,
      `v := v + (F / m) * timeStep`; nothing else of the body changes. */
  function FirstOrder(s: BodyState, c: Chain, f: Vector, timeStep: real): (r: BodyState)
    requires s.Shaped(|f|, 1)
    ensures r.Shaped(|f|, 1)
    ensures r.mass == s.mass
    ensures r.Derivatives(c.Other()) == s.Derivatives(c.Other())
    ensures r.Derivatives(c)[0] == s.Derivatives(c)[0]
    ensures forall i :: 0 <= i < |f| ==>
      r.Derivatives(c)[1][i] == s.Derivatives(c)[1][i] + (f[i] / s.mass) * timeStep
  {
    var velocity := s.Derivatives(c)[1];
    s.WithDerivative(c, 1, Add(velocity, Scale(Acceleration(f, s.mass), timeStep)))
  }

  /** The order-2 rule: the acceleration of chain `c` becomes `F / m`, whatever it was;
      position, velocity, the other chain and the mass are left as they are. */
  function SecondOrder(s: BodyState, c: Chain, f: Vector): (r: BodyState)
    requires s.Shaped(|f|, 2)
    ensures r.Shaped(|f|, 2)
    ensures r.mass == s.mass
    ensures r.Derivatives(c.Other()) == s.Derivatives(c.Other())
    ensures r.Derivatives(c)[0] == s.Derivatives(c)[0]
    ensures r.Derivatives(c)[1] == s.Derivatives(c)[1]
    ensures forall i :: 0 <= i < |f| ==> s.mass * r.Derivatives(c)[2][i] == f[i]
  {
    s.WithDerivative(c, 2, Acceleration(f, s.mass))
  }

  /** `n` successive order-1 steps with the same vector and time step. */
  function RepeatFirstOrder(s: BodyState, c: Chain, f: Vector, timeStep: real, n: nat): (r: BodyState)
    requires s.Shaped(|f|, 1)
    ensures r.Shaped(|f|, 1)
    ensures r.mass == s.mass
    decreases n
  {
    if n == 0 then s else FirstOrder(RepeatFirstOrder(s, c, f, timeStep, n - 1), c, f, timeStep)
  }

  // ---------------------------------------------------------------------------------
  // Properties of the order-1 rule

  /** No coupling between axes: the new velocity on axis `i` depends on the applied vector
      only through its own component `f[i]`. */
  lemma FirstOrderAxesIndependent(s: BodyState, c: Chain, f: Vector, g: Vector, timeStep: real, i: nat)
    requires s.Shaped(|f|, 1) && |g| == |f|
    requires i < |f| && f[i] == g[i]
    ensures FirstOrder(s, c, f, timeStep).Derivatives(c)[1][i] == FirstOrder(s, c, g, timeStep).Derivatives(c)[1][i]
  {
  }

  /** A zero vector is the additive identity: it leaves the whole body unchanged. */
  lemma FirstOrderZero(s: BodyState, c: Chain, f: Vector, timeStep: real)
    requires s.Shaped(|f|, 1) && IsZero(f)
    ensures FirstOrder(s, c, f, timeStep) == s
  {
    var r := FirstOrder(s, c, f, timeStep);
    assert r.Derivatives(c)[1] == s.Derivatives(c)[1];
    assert r.Derivatives(c) == s.Derivatives(c);
    match c
    case Spatial => assert r.spatial == s.spatial;
    case Angular => assert r.angular == s.angular;
  }

  /** Two vectors applied one after the other in the same step have the effect of their sum:
      the caller may add up the forces first or apply them in sequence. */
  lemma FirstOrderSuperposition(s: BodyState, c: Chain, f: Vector, g: Vector, timeStep: real)
    requires s.Shaped(|f|, 1) && |g| == |f|
    ensures FirstOrder(FirstOrder(s, c, f, timeStep), c, g, timeStep) == FirstOrder(s, c, Add(f, g), timeStep)
  {
    var m := s.mass;
    var lhs := FirstOrder(FirstOrder(s, c, f, timeStep), c, g, timeStep);
    var rhs := FirstOrder(s, c, Add(f, g), timeStep);
    forall i | 0 <= i < |f|
      ensures lhs.Derivatives(c)[1][i] == rhs.Derivatives(c)[1][i]
    {
      assert (f[i] / m) * timeStep + (g[i] / m) * timeStep == ((f[i] + g[i]) / m) * timeStep;
    }
    assert lhs.Derivatives(c)[0] == rhs.Derivatives(c)[0];
    assert lhs.Derivatives(c)[1] == rhs.Derivatives(c)[1];
    assert lhs.Derivatives(c) == rhs.Derivatives(c);
    match c
    case Spatial => assert lhs.spatial == rhs.spatial;
    case Angular => assert lhs.angular == rhs.angular;
  }

  /** A force and a torque applied in the same step commute: they act on different chains. */
  lemma FirstOrderChainsCommute(s: BodyState, f: Vector, t: Vector, timeStep: real)
    requires s.Shaped(|f|, 1) && |t| == |f|
    ensures FirstOrder(FirstOrder(s, Spatial, f, timeStep), Angular, t, timeStep)
         == FirstOrder(FirstOrder(s, Angular, t, timeStep), Spatial, f, timeStep)
  {
    var lhs := FirstOrder(FirstOrder(s, Spatial, f, timeStep), Angular, t, timeStep);
    var rhs := FirstOrder(FirstOrder(s, Angular, t, timeStep), Spatial, f, timeStep);
    assert lhs.spatial == rhs.spatial;
    assert lhs.angular == rhs.angular;
  }

  /** `x` added to itself `n` times: the velocity gained from `n` equal Euler increments. */
  function Accumulated(n: nat, x: real): (r: real)
    ensures r == (n as real) * x
  {
    if n == 0 then 0.0 else Accumulated(n - 1, x) + x
  }

  /** Linear accumulation on one axis: after `n` steps the velocity on axis `i` has grown by
      `n` increments of `(F[i] / m) * timeStep`. */
  lemma {:induction false} RepeatFirstOrderAxis(s: BodyState, c: Chain, f: Vector, timeStep: real, n: nat, i: nat)
    requires s.Shaped(|f|, 1) && i < |f|
    ensures RepeatFirstOrder(s, c, f, timeStep, n).Derivatives(c)[1][i]
      == s.Derivatives(c)[1][i] + Accumulated(n, (f[i] / s.mass) * timeStep)
  {
    if n > 0 {
      RepeatFirstOrderAxis(s, c, f, timeStep, n - 1, i);
      var before := RepeatFirstOrder(s, c, f, timeStep, n - 1);
      assert RepeatFirstOrder(s, c, f, timeStep, n) == FirstOrder(before, c, f, timeStep);
    }
  }

  /** Repeated order-1 steps touch neither the position nor the other chain. */
  lemma {:induction false} RepeatFirstOrderFrame(s: BodyState, c: Chain, f: Vector, timeStep: real, n: nat)
    requires s.Shaped(|f|, 1)
    ensures RepeatFirstOrder(s, c, f, timeStep, n).Derivatives(c.Other()) == s.Derivatives(c.Other())
    ensures RepeatFirstOrder(s, c, f, timeStep, n).Derivatives(c)[0] == s.Derivatives(c)[0]
  {
    if n > 0 {
      RepeatFirstOrderFrame(s, c, f, timeStep, n - 1);
    }
  }

  /** Linear accumulation: after `n` steps the velocity on each axis has grown by
      `n * timeStep * F[i] / m`, and the position and the other chain are untouched. */
  lemma RepeatFirstOrderVelocity(s: BodyState, c: Chain, f: Vector, timeStep: real, n: nat)
    requires s.Shaped(|f|, 1)
    ensures RepeatFirstOrder(s, c, f, timeStep, n).Derivatives(c.Other()) == s.Derivatives(c.Other())
    ensures RepeatFirstOrder(s, c, f, timeStep, n).Derivatives(c)[0] == s.Derivatives(c)[0]
    ensures forall i :: 0 <= i < |f| ==>
      RepeatFirstOrder(s, c, f, timeStep, n).Derivatives(c)[1][i]
        == s.Derivatives(c)[1][i] + (n as real) * ((f[i] / s.mass) * timeStep)
  {
    RepeatFirstOrderFrame(s, c, f, timeStep, n);
    forall i | 0 <= i < |f|
      ensures RepeatFirstOrder(s, c, f, timeStep, n).Derivatives(c)[1][i]
        == s.Derivatives(c)[1][i] + (n as real) * ((f[i] / s.mass) * timeStep)
    {
      RepeatFirstOrderAxis(s, c, f, timeStep, n, i);
      assert Accumulated(n, (f[i] / s.mass) * timeStep) == (n as real) * ((f[i] / s.mass) * timeStep);
    }
  }

  /** Starting from rest, `n` steps give exactly velocity `n * timeStep * F[i] / m` on each axis. */
  lemma RepeatFirstOrderFromRest(s: BodyState, c: Chain, f: Vector, timeStep: real, n: nat)
    requires s.Shaped(|f|, 1) && IsZero(s.Derivatives(c)[1])
    ensures forall i :: 0 <= i < |f| ==>
      RepeatFirstOrder(s, c, f, timeStep, n).Derivatives(c)[1][i] == (n as real) * ((f[i] / s.mass) * timeStep)
  {
    RepeatFirstOrderVelocity(s, c, f, timeStep, n);
  }

  // ---------------------------------------------------------------------------------
  // Properties of the order-2 rule

  /** The order-2 rule overwrites: applying `g` after `f` is the same as applying `g` alone. */
  lemma SecondOrderOverwrites(s: BodyState, c: Chain, f: Vector, g: Vector)
    requires s.Shaped(|f|, 2) && |g| == |f|
    ensures SecondOrder(SecondOrder(s, c, f), c, g) == SecondOrder(s, c, g)
  {
    var lhs := SecondOrder(SecondOrder(s, c, f), c, g);
    var rhs := SecondOrder(s, c, g);
    assert lhs.Derivatives(c)[2] == rhs.Derivatives(c)[2];
    assert lhs.Derivatives(c) == rhs.Derivatives(c);
    match c
    case Spatial => assert lhs.spatial == rhs.spatial;
    case Angular => assert lhs.angular == rhs.angular;
  }

  /** The order-2 rule is idempotent: a second application changes nothing more. */
  lemma SecondOrderIdempotent(s: BodyState, c: Chain, f: Vector)
    requires s.Shaped(|f|, 2)
    ensures SecondOrder(SecondOrder(s, c, f), c, f) == SecondOrder(s, c, f)
  {
    SecondOrderOverwrites(s, c, f, f);
  }

  /** No coupling between axes: the new acceleration on axis `i` depends only on `f[i]`. */
  lemma SecondOrderAxesIndependent(s: BodyState, c: Chain, f: Vector, g: Vector, i: nat)
    requires s.Shaped(|f|, 2) && |g| == |f|
    requires i < |f| && f[i] == g[i]
    ensures SecondOrder(s, c, f).Derivatives(c)[2][i] == SecondOrder(s, c, g).Derivatives(c)[2][i]
  {
  }

  // ---------------------------------------------------------------------------------
  // The in-place updates of a body

  /** The rows of chain `c` that the order-1 rule produces, described axis by axis. */
  lemma FirstOrderRows(s: BodyState, c: Chain, f: Vector, timeStep: real, rows: seq<Vector>)
    requires s.Shaped(|f|, 1) && |rows| == 2 && |rows[0]| == |f| && |rows[1]| == |f|
    requires forall j :: 0 <= j < |f| ==> rows[0][j] == s.Derivatives(c)[0][j]
    requires forall j :: 0 <= j < |f| ==> rows[1][j] == s.Derivatives(c)[1][j] + (f[j] / s.mass) * timeStep
    ensures rows == FirstOrder(s, c, f, timeStep).Derivatives(c)
  {
    var expected := FirstOrder(s, c, f, timeStep).Derivatives(c);
    assert |expected[1]| == |f|;
    assert forall j :: 0 <= j < |f| ==> rows[1][j] == expected[1][j];
    assert rows[0] == expected[0];
    assert rows[1] == expected[1];
  }

  /** The rows of chain `c` that the order-2 rule produces, described axis by axis. */
  lemma SecondOrderRows(s: BodyState, c: Chain, f: Vector, rows: seq<Vector>)
    requires s.Shaped(|f|, 2) && |rows| == 3 && |rows[0]| == |f| && |rows[1]| == |f| && |rows[2]| == |f|
    requires forall j :: 0 <= j < |f| ==> rows[0][j] == s.Derivatives(c)[0][j]
    requires forall j :: 0 <= j < |f| ==> rows[1][j] == s.Derivatives(c)[1][j]
    requires forall j :: 0 <= j < |f| ==> rows[2][j] == f[j] / s.mass
    ensures rows == SecondOrder(s, c, f).Derivatives(c)
  {
    var expected := SecondOrder(s, c, f).Derivatives(c);
    assert |expected[1]| == |f|;
    assert rows[0] == expected[0];
    assert rows[1] == expected[1];
    assert rows[2] == expected[2];
  }

  /** Order-1 entry point: adds `(F / m) * timeStep` to the stored velocity of chain `c`, axis by axis. */
  method ApplyFirstOrder(body: Body, c: Chain, f: Vector, timeStep: real)
    requires body.Valid() && body.ord == 1 && |f| == body.dim
    modifies body.Storage(c)
    ensures body.Valid()
    ensures body.State() == FirstOrder(old(body.State()), c, f, timeStep)
  {
    ghost var before := body.State();
    var acceleration := Acceleration(f, body.mass);
    var chain := body.Storage(c);
    assert before.Derivatives(c) == Rows(chain);
    for i := 0 to body.dim
      invariant forall k, j :: 0 <= k < 2 && 0 <= j < body.dim ==>
        chain[k, j] == if k == 1 && j < i then before.Derivatives(c)[k][j] + acceleration[j] * timeStep
                                          else before.Derivatives(c)[k][j]
    {
      chain[1, i] := chain[1, i] + acceleration[i] * timeStep;
    }
    FirstOrderRows(before, c, f, timeStep, Rows(chain));
  }

  /** Order-2 entry point: overwrites the stored acceleration of chain `c` with `F / m`, axis by axis. */
  method ApplySecondOrder(body: Body, c: Chain, f: Vector)
    requires body.Valid() && body.ord == 2 && |f| == body.dim
    modifies body.Storage(c)
    ensures body.Valid()
    ensures body.State() == SecondOrder(old(body.State()), c, f)
  {
    ghost var before := body.State();
    var acceleration := Acceleration(f, body.mass);
    var chain := body.Storage(c);
    assert before.Derivatives(c) == Rows(chain);
    for i := 0 to body.dim
      invariant forall k, j :: 0 <= k < 3 && 0 <= j < body.dim ==>
        chain[k, j] == if k == 2 && j < i then acceleration[j] else before.Derivatives(c)[k][j]
    {
      chain[2, i] := acceleration[i];
    }
    SecondOrderRows(before, c, f, Rows(chain));
  }
}
