/** Playback planning: `play` with the prompts' answers passed in and the bus
    writes returned as data instead of performed. */
module Playback {
  import opened Common
  import opened Slots
  import opened Easing
  import opened ActionLibrary

  /** The acceleration register value written before every playback (`ACC`). */
  const Acceleration: int := 30

  /** The delay between two goal writes at speed factor 1, in seconds. */
  const BaseDelay: real := 0.03

  /** Largest absolute per-joint difference, `np.max(np.abs(end - start))`. */
  function MaxAbsDiff(a: JointVector, b: JointVector): nat
    requires |a| == |b| && |a| > 0
  {
    if |a| == 1 then Abs(b[0] - a[0])
    else
      var rest := MaxAbsDiff(a[1..], b[1..]);
      if Abs(b[0] - a[0]) >= rest then Abs(b[0] - a[0]) else rest
  }

  /** The largest difference bounds every joint's difference and is one of them. */
  lemma {:induction false} MaxAbsDiffIsMax(a: JointVector, b: JointVector)
    requires |a| == |b| && |a| > 0
    ensures forall j :: 0 <= j < |a| ==> Abs(b[j] - a[j]) <= MaxAbsDiff(a, b)
    ensures exists j :: 0 <= j < |a| && Abs(b[j] - a[j]) == MaxAbsDiff(a, b)
  {
    var m := MaxAbsDiff(a, b);
    if |a| == 1 {
      assert Abs(b[0] - a[0]) == m;
    } else {
      var rest := MaxAbsDiff(a[1..], b[1..]);
      MaxAbsDiffIsMax(a[1..], b[1..]);
      forall j | 1 <= j < |a|
        ensures Abs(b[j] - a[j]) <= m
      {
        assert a[1..][j - 1] == a[j] && b[1..][j - 1] == b[j];
      }
      if Abs(b[0] - a[0]) >= rest {
        assert Abs(b[0] - a[0]) == m;
      } else {
        var j :| 0 <= j < |a| - 1 && Abs(b[1..][j] - a[1..][j]) == rest;
        assert a[1..][j] == a[j + 1] && b[1..][j] == b[j + 1];
        assert Abs(b[j + 1] - a[j + 1]) == m;
      }
    }
  }

  /** The number of interpolation steps for a move whose largest joint
      difference is `maxDiff`: 3 below 100, 5 below 300, 7 from 300 on. */
  function StepCount(maxDiff: int): (n: nat)
    ensures n == 3 || n == 5 || n == 7
  {
    if maxDiff < 100 then 3
    else if maxDiff < 300 then 5
    else 7
  }

  /** The thresholds, their boundary values, and that a larger move never gets
      fewer steps. */
  lemma StepCountThresholds(d: int, d': int)
    ensures StepCount(d) == 3 <==> d < 100
    ensures StepCount(d) == 5 <==> 100 <= d < 300
    ensures StepCount(d) == 7 <==> 300 <= d
    ensures d <= d' ==> StepCount(d) <= StepCount(d')
    ensures StepCount(50) == 3 && StepCount(99) == 3 && StepCount(100) == 5
    ensures StepCount(150) == 5 && StepCount(299) == 5 && StepCount(300) == 7 && StepCount(500) == 7
  {
  }

  /** `max(0.5, min(2.0, s))`: the speed factor clamped to [0.5, 2.0]. */
  function ClampSpeed(s: real): (c: real)
    ensures 0.5 <= c <= 2.0
    ensures 0.5 <= s <= 2.0 ==> c == s
    ensures s < 0.5 ==> c == 0.5
    ensures s > 2.0 ==> c == 2.0
  {
    if s < 0.5 then 0.5 else if s > 2.0 then 2.0 else s
  }

  /** Clamping twice is clamping once; 0.1, 1.0 and 5.0 clamp to 0.5, 1.0 and 2.0. */
  lemma ClampSpeedIdempotent(s: real)
    ensures ClampSpeed(ClampSpeed(s)) == ClampSpeed(s)
    ensures ClampSpeed(0.1) == 0.5 && ClampSpeed(1.0) == 1.0 && ClampSpeed(5.0) == 2.0
  {
  }

  /** Python's `int(x)` on a float: truncation toward zero. */
  function Truncate(x: real): (v: int)
    ensures x >= 0.0 ==> v as real <= x < v as real + 1.0
    ensures x < 0.0 ==> v as real - 1.0 < x <= v as real
  {
    if x >= 0.0 then x.Floor else -((-x).Floor)
  }

  /** `BASE_SPEED = int(8000 * s)`: truncated, not rounded; for a clamped
      factor it lies in [4000, 16000]. */
  function BaseSpeed(s: real): (v: int)
    ensures 0.0 <= s ==> v as real <= 8000.0 * s < v as real + 1.0
    ensures 0.5 <= s <= 2.0 ==> 4000 <= v <= 16000
  {
    Truncate(8000.0 * s)
  }

  /** A factor whose product with 8000 ends in .6 shows the truncation. */
  lemma BaseSpeedTruncates()
    ensures BaseSpeed(0.99995) == 7999
    ensures BaseSpeed(1.0) == 8000 && BaseSpeed(0.5) == 4000 && BaseSpeed(2.0) == 16000
  {
  }

  /** `0.03 / s`: the pause after each goal write; a faster factor shortens it
      proportionally. */
  function FrameDelay(s: real): (d: real)
    requires s != 0.0
    ensures d * s == BaseDelay
    ensures 0.5 <= s <= 2.0 ==> 0.015 <= d <= 0.06
  {
    BaseDelay / s
  }

  /** A pair of waypoints the pair loop gets through: equal, non-zero joint
      counts. Two empty vectors make `np.max` raise, and counts numpy cannot
      broadcast make `end - start` raise; either stops the playback. A pair in
      which one vector has a single joint broadcasts instead, which is not
      modelled. */
  predicate PairPlayable(a: JointVector, b: JointVector)
  {
    |a| == |b| && |a| > 0
  }

  function PairSteps(a: JointVector, b: JointVector): (n: nat)
    requires PairPlayable(a, b)
  {
    StepCount(MaxAbsDiff(a, b))
  }

  /** The goal positions written for one waypoint pair. */
  function Segment(a: JointVector, b: JointVector): (r: seq<JointVector>)
    requires PairPlayable(a, b)
    ensures |r| == PairSteps(a, b)
    ensures r[0] == a && r[|r| - 1] == b
  {
    Interpolate(a, b, PairSteps(a, b))
  }

  /** The concatenation of a sequence of sequences, in order. */
  function Flatten<T>(ss: seq<seq<T>>): seq<T>
  {
    if |ss| == 0 then [] else ss[0] + Flatten(ss[1..])
  }

  /** Taking a prefix of the pieces and flattening it: the first piece, then
      the prefix of the rest. */
  lemma FlattenPrefixCons<T>(ss: seq<seq<T>>, n: nat)
    requires 0 < n <= |ss|
    ensures Flatten(ss[..n]) == ss[0] + Flatten(ss[1..][..n - 1])
  {
    assert ss[..n][1..] == ss[1..][..n - 1];
  }

  /** A slice of the second part of a concatenation. */
  lemma SliceAfter<T>(a: seq<T>, b: seq<T>, lo: nat, hi: nat)
    requires lo <= hi <= |b|
    ensures (a + b)[|a| + lo..|a| + hi] == b[lo..hi]
  {
  }

  /** Piece `k` sits in the concatenation right after the pieces before it. */
  lemma {:induction false} FlattenLayout<T>(ss: seq<seq<T>>, k: nat)
    requires k < |ss|
    ensures |Flatten(ss[..k])| + |ss[k]| <= |Flatten(ss)|
    ensures Flatten(ss)[|Flatten(ss[..k])|..|Flatten(ss[..k])| + |ss[k]|] == ss[k]
  {
    if k == 0 {
      assert Flatten(ss[..0]) == [];
      assert (ss[0] + Flatten(ss[1..]))[..|ss[0]|] == ss[0];
    } else {
      FlattenPrefixCons(ss, k);
      FlattenLayout(ss[1..], k - 1);
      var lo := |Flatten(ss[1..][..k - 1])|;
      SliceAfter(ss[0], Flatten(ss[1..]), lo, lo + |ss[k]|);
    }
  }

  /** The first and last element of a non-empty slice. */
  lemma SliceEnds<T>(g: seq<T>, o: nat, s: seq<T>)
    requires |s| > 0 && o + |s| <= |g| && g[o..o + |s|] == s
    ensures g[o] == s[0] && g[o + |s| - 1] == s[|s| - 1]
  {
    assert g[o..o + |s|][0] == g[o];
    assert g[o..o + |s|][|s| - 1] == g[o + |s| - 1];
  }

  /** The summed lengths of the first `k` pieces. */
  function SumLengths<T>(ss: seq<seq<T>>, k: nat): nat
    requires k <= |ss|
  {
    if k == 0 then 0 else SumLengths(ss, k - 1) + |ss[k - 1]|
  }

  /** Flattening the first `k` pieces gives their summed length. */
  lemma {:induction false} FlattenPrefixLength<T>(ss: seq<seq<T>>, k: nat)
    requires k <= |ss|
    ensures |Flatten(ss[..k])| == SumLengths(ss, k)
    decreases |ss|
  {
    if k > 0 {
      FlattenPrefixCons(ss, k);
      FlattenPrefixLength(ss[1..], k - 1);
      ShiftSumLengths(ss, k - 1);
    }
  }

  /** Dropping the first piece shifts the sums by its length. */
  lemma {:induction false} ShiftSumLengths<T>(ss: seq<seq<T>>, k: nat)
    requires k < |ss|
    ensures SumLengths(ss, k + 1) == |ss[0]| + SumLengths(ss[1..], k)
  {
    if k > 0 {
      ShiftSumLengths(ss, k - 1);
    }
  }

  /** Where two consecutive non-empty pieces meet: the last element of piece
      `k` is followed directly by the first element of piece `k + 1`. */
  lemma FlattenSeam<T>(ss: seq<seq<T>>, k: nat)
    requires k + 1 < |ss| && |ss[k]| > 0 && |ss[k + 1]| > 0
    ensures 0 < |Flatten(ss[..k + 1])| < |Flatten(ss)|
    ensures Flatten(ss)[|Flatten(ss[..k + 1])| - 1] == ss[k][|ss[k]| - 1]
    ensures Flatten(ss)[|Flatten(ss[..k + 1])|] == ss[k + 1][0]
  {
    var g := Flatten(ss);
    FlattenLayout(ss, k);
    FlattenLayout(ss, k + 1);
    FlattenPrefixLength(ss, k);
    FlattenPrefixLength(ss, k + 1);
    SliceEnds(g, |Flatten(ss[..k])|, ss[k]);
    SliceEnds(g, |Flatten(ss[..k + 1])|, ss[k + 1]);
  }

  /** Waypoints `i` and `i + 1` exist and form a playable pair. */
  predicate PlayableAt(ps: seq<JointVector>, i: nat)
  {
    i + 1 < |ps| && PairPlayable(ps[i], ps[i + 1])
  }

  /** Every pair from `i` up to, not including, pair `k` is playable. */
  predicate PlayableBetween(ps: seq<JointVector>, i: nat, k: nat)
  {
    forall m :: i <= m < k ==> PlayableAt(ps, m)
  }

  /** Pair `k` is where the pair loop stops: past the last pair, or at one that
      raises. */
  predicate StopsAt(ps: seq<JointVector>, k: nat)
  {
    k + 1 >= |ps| || !PairPlayable(ps[k], ps[k + 1])
  }

  /** How many pairs from pair `i` on the loop of `play` gets through: it stops
      at the first pair that is not playable, whose `end - start` or `np.max`
      raises inside the `try`, or after the last pair. */
  function PairsPlayed(ps: seq<JointVector>, i: nat): (n: nat)
    ensures i + n <= |ps| || n == 0
    ensures PlayableBetween(ps, i, i + n)
    ensures StopsAt(ps, i + n)
    decreases |ps| - i
  {
    if StopsAt(ps, i) then 0
    else
      var n := PairsPlayed(ps, i + 1);
      assert PlayableAt(ps, i);
      1 + n
  }

  /** The goal positions of the first `n` pairs, one interpolation per pair. */
  function Segments(ps: seq<JointVector>, n: nat): (ss: seq<seq<JointVector>>)
    requires PlayableBetween(ps, 0, n)
    ensures |ss| == n
  {
    if n == 0 then []
    else
      assert PlayableAt(ps, n - 1);
      Segments(ps, n - 1) + [Segment(ps[n - 1], ps[n])]
  }

  /** Segment `k` of the played pairs is the interpolation from waypoint `k`
      to waypoint `k + 1`. */
  lemma {:induction false} SegmentsAt(ps: seq<JointVector>, n: nat, k: nat)
    requires PlayableBetween(ps, 0, n) && k < n
    ensures PlayableAt(ps, k)
    ensures Segments(ps, n)[k] == Segment(ps[k], ps[k + 1])
  {
    assert PlayableAt(ps, k);
    var prev := Segments(ps, n - 1);
    var seg := Segment(ps[k], ps[k + 1]);
    if k == n - 1 {
      assert Segments(ps, n) == prev + [seg];
    } else {
      SegmentsAt(ps, n - 1, k);
      assert Segments(ps, n)[k] == prev[k];
    }
  }

  /** Segment `k` of the played pairs runs from waypoint `k` to waypoint
      `k + 1`. */
  lemma SegmentsEnds(ps: seq<JointVector>, n: nat, k: nat)
    requires PlayableBetween(ps, 0, n) && k < n
    ensures PlayableAt(ps, k)
    ensures |Segments(ps, n)[k]| == PairSteps(ps[k], ps[k + 1])
    ensures Segments(ps, n)[k][0] == ps[k]
    ensures Segments(ps, n)[k][|Segments(ps, n)[k]| - 1] == ps[k + 1]
  {
    SegmentsAt(ps, n, k);
  }

  /** The goal positions of a playback and whether the pair loop finished. */
  datatype GoalRun = GoalRun(goals: seq<JointVector>, completed: bool)

  /** The pair loop of `play`: the goals of every pair it gets through, in
      order; it finishes exactly when every pair is playable. */
  function GoalPlan(ps: seq<JointVector>): (r: GoalRun)
    ensures |ps| <= 1 ==> r == GoalRun([], true)
    ensures r.completed <==> |ps| <= 1 || PlayableBetween(ps, 0, |ps| - 1)
  {
    var n := PairsPlayed(ps, 0);
    assert |ps| > 1 && n + 1 < |ps| ==> PlayableBetween(ps, 0, |ps| - 1) ==> PlayableAt(ps, n);
    GoalRun(Flatten(Segments(ps, n)), n + 1 >= |ps|)
  }

  /** The loop gets through exactly the pairs before the first one that
      stops it. */
  lemma PairsPlayedIsFirstStop(ps: seq<JointVector>, k: nat)
    requires PlayableBetween(ps, 0, k) && StopsAt(ps, k)
    ensures PairsPlayed(ps, 0) == k
  {
    var n := PairsPlayed(ps, 0);
    assert n < k ==> PlayableAt(ps, n);
    assert k < n ==> PlayableAt(ps, k);
  }

  /** A pair preceded only by playable pairs, and playable itself, is
      played. */
  lemma PairsPlayedCovers(ps: seq<JointVector>, k: nat)
    requires PlayableBetween(ps, 0, k + 1)
    ensures k < PairsPlayed(ps, 0)
  {
    var n := PairsPlayed(ps, 0);
    assert n <= k ==> PlayableAt(ps, n);
  }

  /** A recording whose third waypoint has one joint more: the loop plays the
      first pair, whose largest move of 10 takes three steps, and stops at the
      second. */
  lemma PairsPlayedExample()
    ensures var ps := [[0, 0], [10, 10], [1, 2, 3]];
      && PairsPlayed(ps, 0) == 1
      && !GoalPlan(ps).completed
      && Offset(ps, 1) == 3
  {
    var ps: seq<JointVector> := [[0, 0], [10, 10], [1, 2, 3]];
    assert PlayableAt(ps, 0) && StopsAt(ps, 1);
    PairsPlayedIsFirstStop(ps, 1);
    assert MaxAbsDiff(ps[0], ps[1]) == 10;
  }

  /** Where the goals of pair `k` start: the sum of the step counts of the
      pairs before it. */
  function Offset(ps: seq<JointVector>, k: nat): nat
    requires PlayableBetween(ps, 0, k)
  {
    if k == 0 then 0
    else
      assert PlayableAt(ps, k - 1);
      Offset(ps, k - 1) + PairSteps(ps[k - 1], ps[k])
  }

  /** The goals before pair `k` number its offset. */
  lemma {:induction false} SegmentsPrefixLength(ps: seq<JointVector>, n: nat, k: nat)
    requires PlayableBetween(ps, 0, n) && k <= n
    ensures |Flatten(Segments(ps, n)[..k])| == Offset(ps, k)
  {
    var ss := Segments(ps, n);
    FlattenPrefixLength(ss, k);
    SumLengthsOffset(ps, n, k);
  }

  lemma {:induction false} SumLengthsOffset(ps: seq<JointVector>, n: nat, k: nat)
    requires PlayableBetween(ps, 0, n) && k <= n
    ensures SumLengths(Segments(ps, n), k) == Offset(ps, k)
  {
    if k > 0 {
      assert PlayableAt(ps, k - 1);
      SumLengthsOffset(ps, n, k - 1);
      SegmentsEnds(ps, n, k - 1);
    }
  }

  /** The goals of pair `k` sit at its offset, one segment long. */
  lemma GoalPlanLayout(ps: seq<JointVector>, k: nat)
    requires PlayableBetween(ps, 0, k + 1)
    ensures PlayableAt(ps, k)
    ensures Offset(ps, k) + PairSteps(ps[k], ps[k + 1]) <= |GoalPlan(ps).goals|
    ensures GoalPlan(ps).goals[Offset(ps, k)..Offset(ps, k) + PairSteps(ps[k], ps[k + 1])]
      == Segment(ps[k], ps[k + 1])
  {
    assert PlayableAt(ps, k);
    PairsPlayedCovers(ps, k);
    var n := PairsPlayed(ps, 0);
    var ss := Segments(ps, n);
    SegmentsPrefixLength(ps, n, k);
    FlattenLayout(ss, k);
    SegmentsAt(ps, n, k);
  }

  /** A run writes exactly the goals of the pairs it gets through: with every
      pair playable, the sum of all step counts; otherwise, the step counts of
      the pairs before the first one that is not. */
  lemma GoalPlanCount(ps: seq<JointVector>, k: nat)
    requires PlayableBetween(ps, 0, k) && StopsAt(ps, k)
    ensures |GoalPlan(ps).goals| == Offset(ps, k)
  {
    PairsPlayedIsFirstStop(ps, k);
    var ss := Segments(ps, k);
    SegmentsPrefixLength(ps, k, k);
    assert ss[..k] == ss;
  }

  /** Consecutive segments meet: the last goal of pair `k` and the first goal
      of pair `k + 1` are both waypoint `k + 1`. */
  lemma GoalPlanSeams(ps: seq<JointVector>, k: nat)
    requires k + 2 < |ps| && PlayableBetween(ps, 0, k + 2)
    ensures 0 < Offset(ps, k + 1) < |GoalPlan(ps).goals|
    ensures GoalPlan(ps).goals[Offset(ps, k + 1) - 1] == ps[k + 1]
    ensures GoalPlan(ps).goals[Offset(ps, k + 1)] == ps[k + 1]
  {
    assert PlayableAt(ps, k) && PlayableAt(ps, k + 1);
    PairsPlayedCovers(ps, k + 1);
    var n := PairsPlayed(ps, 0);
    var ss := Segments(ps, n);
    SegmentsPrefixLength(ps, n, k + 1);
    SegmentsEnds(ps, n, k);
    SegmentsEnds(ps, n, k + 1);
    FlattenSeam(ss, k);
  }

  /** All joints of all waypoints lie in [lo, hi] (the encoder range, say). */
  predicate InRange(ps: seq<JointVector>, lo: int, hi: int)
  {
    forall i, j :: 0 <= i < |ps| && 0 <= j < |ps[i]| ==> lo <= ps[i][j] <= hi
  }

  lemma InRangeConcat(s: seq<JointVector>, t: seq<JointVector>, lo: int, hi: int)
    requires InRange(s, lo, hi) && InRange(t, lo, hi)
    ensures InRange(s + t, lo, hi)
  {
    var g := s + t;
    forall i, j | 0 <= i < |g| && 0 <= j < |g[i]|
      ensures lo <= g[i][j] <= hi
    {
      if i >= |s| {
        assert g[i] == t[i - |s|];
      }
    }
  }

  /** The goals of one pair stay within a range both waypoints lie in. */
  lemma SegmentInRange(a: JointVector, b: JointVector, lo: int, hi: int)
    requires PairPlayable(a, b)
    requires forall j :: 0 <= j < |a| ==> lo <= a[j] <= hi && lo <= b[j] <= hi
    ensures InRange(Segment(a, b), lo, hi)
  {
    var seg := Segment(a, b);
    InterpolateWithin(a, b, PairSteps(a, b));
    forall i, j | 0 <= i < |seg| && 0 <= j < |seg[i]|
      ensures lo <= seg[i][j] <= hi
    {
      assert Within(seg[i][j], a[j], b[j]);
    }
  }

  /** Flattening pieces that all lie in a range stays in it. */
  lemma {:induction false} FlattenInRange(ss: seq<seq<JointVector>>, lo: int, hi: int)
    requires forall k :: 0 <= k < |ss| ==> InRange(ss[k], lo, hi)
    ensures InRange(Flatten(ss), lo, hi)
  {
    if |ss| > 0 {
      FlattenInRange(ss[1..], lo, hi);
      InRangeConcat(ss[0], Flatten(ss[1..]), lo, hi);
    }
  }

  /** Playback never commands a position outside the range the recorded
      waypoints span. */
  lemma GoalPlanInRange(ps: seq<JointVector>, lo: int, hi: int)
    requires InRange(ps, lo, hi)
    ensures InRange(GoalPlan(ps).goals, lo, hi)
  {
    var n := PairsPlayed(ps, 0);
    var ss := Segments(ps, n);
    forall k | 0 <= k < n
      ensures InRange(ss[k], lo, hi)
    {
      SegmentsAt(ps, n, k);
      var a, b := ps[k], ps[k + 1];
      assert forall j :: 0 <= j < |a| ==> lo <= a[j] <= hi && lo <= b[j] <= hi;
      SegmentInRange(a, b, lo, hi);
    }
    FlattenInRange(ss, lo, hi);
  }

  /** The writes `play` issues, in order. */
  datatype BusWrite =
    | SetAcceleration(acceleration: int)   // `Acceleration`
    | SetGoalSpeed(speed: int)             // `Goal_Speed`
    | SetGoalPosition(goal: JointVector)   // `Goal_Position`

  datatype PlayError = InvalidSlot | NoSuchAction

  /** A planned playback: the clamped speed factor, the pause after each goal
      write, the bus writes, and whether the pair loop finished. */
  datatype Playback = Playback(speed: real, frameDelay: real, writes: seq<BusWrite>, completed: bool)

  /** The writes of one playback: acceleration, base speed, then the goals. */
  function PlaybackWrites(speed: real, goals: seq<JointVector>): (w: seq<BusWrite>)
    ensures |w| == |goals| + 2
    ensures w[0] == SetAcceleration(Acceleration) && w[1] == SetGoalSpeed(BaseSpeed(speed))
    ensures forall i :: 0 <= i < |goals| ==> w[i + 2] == SetGoalPosition(goals[i])
  {
    [SetAcceleration(Acceleration), SetGoalSpeed(BaseSpeed(speed))]
      + seq(|goals|, i requires 0 <= i < |goals| => SetGoalPosition(goals[i]))
  }

  /** `max(0.5, min(2.0, float(answer or 1.0)))`: the speed answer, 1.0 when
      left empty, clamped. */
  function SpeedFactor(speedAnswer: Option<real>): (s: real)
    ensures 0.5 <= s <= 2.0
    ensures speedAnswer.None? ==> s == 1.0
    ensures speedAnswer.Some? && 0.5 <= speedAnswer.value <= 2.0 ==> s == speedAnswer.value
    ensures speedAnswer.Some? && speedAnswer.value < 0.5 ==> s == 0.5
    ensures speedAnswer.Some? && speedAnswer.value > 2.0 ==> s == 2.0
  {
    match speedAnswer
    case Some(v) => ClampSpeed(v)
    case None => 1.0
  }

  /** Playing one saved action at the answered speed (`None` for an empty
      answer, which means 1.0): the factor is clamped, the acceleration and the
      base speed are written, then every goal position of the pair loop. */
  function PlayAction(a: Action, speedAnswer: Option<real>): (p: Playback)
    ensures 0.5 <= p.speed <= 2.0
    ensures speedAnswer.None? ==> p.speed == 1.0
    ensures speedAnswer.Some? && 0.5 <= speedAnswer.value <= 2.0 ==> p.speed == speedAnswer.value
    ensures speedAnswer.Some? && speedAnswer.value < 0.5 ==> p.speed == 0.5
    ensures speedAnswer.Some? && speedAnswer.value > 2.0 ==> p.speed == 2.0
    ensures p.frameDelay == FrameDelay(p.speed) && 0.015 <= p.frameDelay <= 0.06
    ensures 4000 <= BaseSpeed(p.speed) <= 16000
    ensures p.writes == PlaybackWrites(p.speed, GoalPlan(a.positions).goals)
    ensures p.completed == GoalPlan(a.positions).completed
  {
    var speed := SpeedFactor(speedAnswer);
    var plan := GoalPlan(a.positions);
    Playback(speed, FrameDelay(speed), PlaybackWrites(speed, plan.goals), plan.completed)
  }

  /** `play` with the slot answer as a parameter: it must be a digit string for
      1..10 naming a saved action. */
  function Play(lib: Library, slotAnswer: string, speedAnswer: Option<real>): (r: Result<Playback, PlayError>)
    ensures ParseSlot(slotAnswer).None? ==> r == Failure(InvalidSlot)
    ensures ParseSlot(slotAnswer).Some? && ParseSlot(slotAnswer).value !in lib ==> r == Failure(NoSuchAction)
    ensures ParseSlot(slotAnswer).Some? && ParseSlot(slotAnswer).value in lib ==> r.Success?
    ensures r.Success? ==>
      && ParseSlot(slotAnswer).Some? && ParseSlot(slotAnswer).value in lib
      && r.value == PlayAction(lib[ParseSlot(slotAnswer).value], speedAnswer)
  {
    match ParseSlot(slotAnswer)
    case None => Failure(InvalidSlot)
    case Some(n) => if n !in lib then Failure(NoSuchAction) else Success(PlayAction(lib[n], speedAnswer))
  }

  /** Playing an action of at most one waypoint writes only the two registers:
      no goal position at all. */
  lemma PlayShortActionWritesNoGoal(lib: Library, slotAnswer: string, speedAnswer: Option<real>)
    requires ParseSlot(slotAnswer).Some? && ParseSlot(slotAnswer).value in lib
    requires |lib[ParseSlot(slotAnswer).value].positions| <= 1
    ensures Play(lib, slotAnswer, speedAnswer).Success?
    ensures forall w :: w in Play(lib, slotAnswer, speedAnswer).value.writes ==> !w.SetGoalPosition?
  {
  }
}
