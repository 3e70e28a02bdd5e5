/** The quadratic ease-in-out curve and the waypoint interpolation built on it
    (`ease_in_out_quad`, `interpolate_positions`). Arithmetic is exact: the
    parameters `i / (steps - 1)` and the curve values are rationals. */
module Easing {
  import opened Common
  import opened Rounding

  /** Quadratic ease-in-out: `2t²` below one half, `1 - (2 - 2t)² / 2` from
      one half on. On [0, 1] it starts at 0, passes one half at one half and
      ends at 1. */
  function Ease(t: real): (e: real)
    ensures 0.0 <= t <= 1.0 ==> 0.0 <= e <= 1.0
    ensures 0.0 <= t < 0.5 ==> e < 0.5
    ensures 0.5 <= t <= 1.0 ==> 0.5 <= e
    ensures t == 0.0 ==> e == 0.0
    ensures t == 0.5 ==> e == 0.5
    ensures t == 1.0 ==> e == 1.0
  {
    SquareFacts(t);
    if t < 0.5 then 2.0 * t * t
    else 1.0 - (2.0 - 2.0 * t) * (2.0 - 2.0 * t) / 2.0
  }

  /** Squaring is monotone on non-negative reals. */
  lemma SquareBelow(u: real, v: real)
    requires 0.0 <= u <= v
    ensures 0.0 <= u * u <= v * v
  {
    assert u * u <= u * v;
    assert u * v <= v * v;
  }

  /** A square is never negative, whatever the sign of its root. */
  lemma SquareNonNegative(u: real)
    ensures 0.0 <= u * u
  {
    if u < 0.0 {
      SquareBelow(-u, -u);
      assert u * u == (-u) * (-u);
    } else {
      SquareBelow(u, u);
    }
  }

  /** The facts about squares that bound the curve. */
  lemma SquareFacts(t: real)
    ensures 0.0 <= t * t
    ensures 0.0 <= (2.0 - 2.0 * t) * (2.0 - 2.0 * t)
    ensures 0.0 <= t < 0.5 ==> t * t < 0.25
    ensures 0.5 <= t <= 1.0 ==> (2.0 - 2.0 * t) * (2.0 - 2.0 * t) <= 1.0
  {
    SquareNonNegative(t);
    SquareNonNegative(2.0 - 2.0 * t);
    if 0.0 <= t < 0.5 {
      assert t * t <= t * 0.5;
    }
    if 0.5 <= t <= 1.0 {
      SquareBelow(2.0 - 2.0 * t, 1.0);
    }
  }

  /** The curve never decreases on [0, 1]. */
  lemma EaseMonotone(x: real, y: real)
    requires 0.0 <= x <= y <= 1.0
    ensures Ease(x) <= Ease(y)
  {
    if y < 0.5 {
      SquareBelow(x, y);
    } else if 0.5 <= x {
      SquareBelow(2.0 - 2.0 * y, 2.0 - 2.0 * x);
    }
  }

  /** The curve is point-symmetric about (1/2, 1/2): easing out mirrors easing in. */
  lemma EaseSymmetric(t: real)
    ensures Ease(1.0 - t) == 1.0 - Ease(t)
  {
  }

  /** The curve parameter of step `i` out of `steps`: `i / (steps - 1)`. */
  function Param(i: nat, steps: nat): real
    requires steps >= 2
  {
    i as real / (steps - 1) as real
  }

  /** The first step sits at parameter 0 and the last at parameter 1. */
  lemma ParamEnds(steps: nat)
    requires steps >= 2
    ensures Param(0, steps) == 0.0 && Param(steps - 1, steps) == 1.0
  {
  }

  /** Counting steps from the other end mirrors the parameter. */
  lemma ParamMirror(i: nat, steps: nat)
    requires steps >= 2 && i < steps
    ensures Param(steps - 1 - i, steps) == 1.0 - Param(i, steps)
  {
    var n := (steps - 1) as real;
    var p, q := Param(i, steps), Param(steps - 1 - i, steps);
    assert p * n == i as real;
    assert q * n == n - i as real;
    assert (p + q - 1.0) * n == p * n + q * n - n == 0.0;
    NonZeroProduct(p + q - 1.0, n);
  }

  /** A product with a positive factor is zero only when the other factor is. */
  lemma NonZeroProduct(x: real, n: real)
    requires n > 0.0 && x * n == 0.0
    ensures x == 0.0
  {
  }

  /** Parameters grow with the step index from 0 to 1. */
  lemma ParamOrder(i: nat, k: nat, steps: nat)
    requires steps >= 2 && i <= k < steps
    ensures 0.0 <= Param(i, steps) <= Param(k, steps) <= 1.0
  {
    var n := (steps - 1) as real;
    assert Param(k, steps) - Param(i, steps) == (k - i) as real / n;
  }

  /** Scaling a distance by a factor in [0, 1] stays between zero and the distance. */
  lemma ScaleBounds(d: real, e: real)
    requires 0.0 <= e <= 1.0
    ensures d >= 0.0 ==> 0.0 <= d * e <= d
    ensures d < 0.0 ==> d <= d * e <= 0.0
  {
    if d >= 0.0 {
      assert d - d * e == d * (1.0 - e);
    } else {
      assert d * e - d == (-d) * (1.0 - e);
    }
  }

  lemma ScaleMonotone(d: real, e: real, f: real)
    requires e <= f
    ensures d >= 0.0 ==> d * e <= d * f
    ensures d < 0.0 ==> d * f <= d * e
  {
    assert d * f - d * e == d * (f - e);
  }

  /** The exact position of a joint at curve value `e`: `x + (y - x) * e`. */
  function BlendValue(x: int, y: int, e: real): real
  {
    x as real + (y - x) as real * e
  }

  /** One joint of an interpolated vector: `round(x + (y - x) * e)`, the
      integer within one half of the exact position. */
  function BlendJoint(x: int, y: int, e: real): (v: int)
    ensures BlendValue(x, y, e) - 0.5 <= v as real <= BlendValue(x, y, e) + 0.5
  {
    RoundHalfEven(BlendValue(x, y, e))
  }

  /** One interpolated vector, joint by joint. */
  function Blend(a: JointVector, b: JointVector, e: real): (v: JointVector)
    requires |a| == |b|
    ensures |v| == |a|
  {
    seq(|a|, j requires 0 <= j < |a| => BlendJoint(a[j], b[j], e))
  }

  /** The vector of step `i` out of `steps`: the blend at the eased parameter. */
  function Frame(a: JointVector, b: JointVector, i: nat, steps: nat): (v: JointVector)
    requires |a| == |b| && steps >= 2
    ensures |v| == |a|
  {
    Blend(a, b, Ease(Param(i, steps)))
  }

  /** The `result` list after `count` turns of the loop of
      `interpolate_positions`: one frame appended per step. */
  function Frames(a: JointVector, b: JointVector, steps: nat, count: nat): (r: seq<JointVector>)
    requires |a| == |b| && steps >= 2 && count <= steps
    ensures |r| == count
    ensures forall i :: 0 <= i < count ==> |r[i]| == |a|
  {
    if count == 0 then [] else Frames(a, b, steps, count - 1) + [Frame(a, b, count - 1, steps)]
  }

  /** The frame of step `i` stays where the loop appended it. */
  lemma {:induction false} FramesAt(a: JointVector, b: JointVector, steps: nat, count: nat, i: nat)
    requires |a| == |b| && steps >= 2 && i < count <= steps
    ensures Frames(a, b, steps, count)[i] == Frame(a, b, i, steps)
  {
    if i < count - 1 {
      FramesAt(a, b, steps, count - 1, i);
    }
  }

  /** `interpolate_positions(start, end, steps)`: `steps` vectors from `a` to `b`
      along the eased parameter, the first exactly `a` and the last exactly `b`.
      `steps == 1` divides by zero in the program; `steps == 0` gives no vector. */
  function Interpolate(a: JointVector, b: JointVector, steps: nat): (r: seq<JointVector>)
    requires |a| == |b|
    requires steps != 1
    ensures |r| == steps
    ensures forall i :: 0 <= i < steps ==> |r[i]| == |a|
    ensures steps >= 2 ==> r[0] == a && r[steps - 1] == b
  {
    if steps == 0 then []
    else
      EndpointBlends(a, b);
      ParamEnds(steps);
      FramesAt(a, b, steps, steps, 0);
      FramesAt(a, b, steps, steps, steps - 1);
      Frames(a, b, steps, steps)
  }

  /** Curve value 0 gives the start vector and curve value 1 the end vector. */
  lemma EndpointBlends(a: JointVector, b: JointVector)
    requires |a| == |b|
    ensures Blend(a, b, 0.0) == a
    ensures Blend(a, b, 1.0) == b
  {
    forall j | 0 <= j < |a|
      ensures BlendJoint(a[j], b[j], 0.0) == a[j] && BlendJoint(a[j], b[j], 1.0) == b[j]
    {
      RoundOfInteger(a[j]);
      RoundOfInteger(b[j]);
    }
  }

  /** Joint `j` of step `i` of an interpolation, spelled out. */
  lemma InterpolateAt(a: JointVector, b: JointVector, steps: nat, i: nat, j: nat)
    requires |a| == |b| && steps >= 2 && i < steps && j < |a|
    ensures Interpolate(a, b, steps)[i][j] == BlendJoint(a[j], b[j], Ease(Param(i, steps)))
  {
    FramesAt(a, b, steps, steps, i);
  }

  /** With a curve value in [0, 1] the exact position lies between the endpoints. */
  lemma BlendValueWithin(x: int, y: int, e: real)
    requires 0.0 <= e <= 1.0
    ensures x <= y ==> x as real <= BlendValue(x, y, e) <= y as real
    ensures y <= x ==> y as real <= BlendValue(x, y, e) <= x as real
  {
    ScaleBounds((y - x) as real, e);
  }

  /** A blend with a curve value in [0, 1] lies on the segment between the endpoints. */
  lemma BlendWithin(x: int, y: int, e: real)
    requires 0.0 <= e <= 1.0
    ensures Within(BlendJoint(x, y, e), x, y)
  {
    BlendValueWithin(x, y, e);
    if x <= y {
      RoundWithin(BlendValue(x, y, e), x, y);
    } else {
      RoundWithin(BlendValue(x, y, e), y, x);
    }
  }

  /** A larger curve value moves the exact position further towards the end value. */
  lemma BlendValueMonotone(x: int, y: int, e: real, f: real)
    requires e <= f
    ensures x <= y ==> BlendValue(x, y, e) <= BlendValue(x, y, f)
    ensures y <= x ==> BlendValue(x, y, f) <= BlendValue(x, y, e)
  {
    ScaleMonotone((y - x) as real, e, f);
  }

  /** A larger curve value moves a joint further towards its end value. */
  lemma BlendMonotone(x: int, y: int, e: real, f: real)
    requires e <= f
    ensures x <= y ==> BlendJoint(x, y, e) <= BlendJoint(x, y, f)
    ensures y <= x ==> BlendJoint(x, y, f) <= BlendJoint(x, y, e)
  {
    BlendValueMonotone(x, y, e, f);
    if x <= y {
      RoundMonotone(BlendValue(x, y, e), BlendValue(x, y, f));
    }
    if y <= x {
      RoundMonotone(BlendValue(x, y, f), BlendValue(x, y, e));
    }
  }

  /** Blending from `y` back to `x` with the complementary curve value lands on
      the same rational value, hence on the same integer. */
  lemma BlendMirror(x: int, y: int, e: real)
    ensures BlendJoint(y, x, 1.0 - e) == BlendJoint(x, y, e)
  {
    assert BlendValue(y, x, 1.0 - e) == BlendValue(x, y, e);
  }

  /** Every interpolated position lies, joint by joint, between the two waypoints:
      interpolation never overshoots. */
  lemma InterpolateWithin(a: JointVector, b: JointVector, steps: nat)
    requires |a| == |b| && steps != 1
    ensures forall i, j :: 0 <= i < steps && 0 <= j < |a| ==>
      Within(Interpolate(a, b, steps)[i][j], a[j], b[j])
  {
    forall i, j | 0 <= i < steps && 0 <= j < |a|
      ensures Within(Interpolate(a, b, steps)[i][j], a[j], b[j])
    {
      InterpolateAt(a, b, steps, i, j);
      ParamOrder(i, i, steps);
      BlendWithin(a[j], b[j], Ease(Param(i, steps)));
    }
  }

  /** Each joint moves monotonically from its start value to its end value: a
      later step is never further back than an earlier one. */
  lemma InterpolateMonotone(a: JointVector, b: JointVector, steps: nat, i: nat, k: nat, j: nat)
    requires |a| == |b| && steps != 1
    requires i <= k < steps && j < |a|
    ensures a[j] <= b[j] ==> Interpolate(a, b, steps)[i][j] <= Interpolate(a, b, steps)[k][j]
    ensures b[j] <= a[j] ==> Interpolate(a, b, steps)[k][j] <= Interpolate(a, b, steps)[i][j]
  {
    InterpolateAt(a, b, steps, i, j);
    InterpolateAt(a, b, steps, k, j);
    ParamOrder(i, k, steps);
    EaseMonotone(Param(i, steps), Param(k, steps));
    BlendMonotone(a[j], b[j], Ease(Param(i, steps)), Ease(Param(k, steps)));
  }

  function Reverse<T>(s: seq<T>): (r: seq<T>)
    ensures |r| == |s|
  {
    seq(|s|, i requires 0 <= i < |s| => s[|s| - 1 - i])
  }

  /** Interpolating backwards visits the same positions in reverse order: both
      directions round the same rational value. */
  lemma InterpolateReverse(a: JointVector, b: JointVector, steps: nat)
    requires |a| == |b| && steps != 1
    ensures Interpolate(b, a, steps) == Reverse(Interpolate(a, b, steps))
  {
    var fwd, bwd := Interpolate(a, b, steps), Interpolate(b, a, steps);
    forall i | 0 <= i < steps
      ensures bwd[i] == fwd[steps - 1 - i]
    {
      var t := Param(i, steps);
      ParamMirror(i, steps);
      EaseSymmetric(t);
      forall j | 0 <= j < |a|
        ensures bwd[i][j] == fwd[steps - 1 - i][j]
      {
        InterpolateAt(b, a, steps, i, j);
        InterpolateAt(a, b, steps, steps - 1 - i, j);
        BlendMirror(b[j], a[j], Ease(t));
      }
    }
  }

  /** At the midpoint of a three-step move an odd distance lands exactly on
      one half, and the tie goes to the even neighbour. */
  lemma MidpointTiesToEven()
    ensures Interpolate([0], [1], 3) == [[0], [0], [1]]
    ensures Interpolate([0], [3], 3) == [[0], [2], [3]]
    ensures Interpolate([100], [0], 3) == [[100], [50], [0]]
  {
    assert Param(1, 3) == 0.5;
    RoundOfInteger(50);
    assert BlendJoint(0, 1, 0.5) == RoundHalfEven(0.5) == 0;
    assert BlendJoint(0, 3, 0.5) == RoundHalfEven(1.5) == 2;
    assert BlendJoint(100, 0, 0.5) == RoundHalfEven(50.0) == 50;
    MiddleOfThree([0], [1]);
    MiddleOfThree([0], [3]);
    MiddleOfThree([100], [0]);
  }

  /** A three-step move of a single joint: start, the half-way blend, end. */
  lemma MiddleOfThree(a: JointVector, b: JointVector)
    requires |a| == |b| == 1
    ensures Interpolate(a, b, 3) == [a, [BlendJoint(a[0], b[0], 0.5)], b]
  {
    var r := Interpolate(a, b, 3);
    assert Param(1, 3) == 0.5;
    InterpolateAt(a, b, 3, 1, 0);
    assert r[1] == [BlendJoint(a[0], b[0], 0.5)];
  }
}
