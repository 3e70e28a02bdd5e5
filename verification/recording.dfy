/** The recording side: the three-sample smoothing of `_record` in `record`,
    with the bus read abstracted to an optional vector, and the post-recording
    trim of `edit_recording`. */
module Recording {
  import opened Common
  import opened Rounding

  /** Number of raw samples averaged into one recorded waypoint. */
  const Window: nat := 3

  /** Number of frames `edit_recording` drops at either end. */
  const TrimFrames: nat := 3

  /** `np.round(np.mean([x, y, z]))`: the integer nearest the mean of three
      integers. A mean of three integers is never a half, so no tie arises. */
  function RoundedMean3(x: int, y: int, z: int): (m: int)
    ensures 3 * m - 1 <= x + y + z <= 3 * m + 1
  {
    RoundHalfEven((x + y + z) as real / 3.0)
  }

  /** The rounded mean agrees with the integer formula `(x + y + z + 1) div 3`,
      and lies between the smallest and the largest sample. */
  lemma RoundedMean3Reference(x: int, y: int, z: int)
    ensures RoundedMean3(x, y, z) == (x + y + z + 1) / 3
    ensures x <= y && x <= z ==> x <= RoundedMean3(x, y, z)
    ensures y <= x && y <= z ==> y <= RoundedMean3(x, y, z)
    ensures z <= x && z <= y ==> z <= RoundedMean3(x, y, z)
    ensures y <= x && z <= x ==> RoundedMean3(x, y, z) <= x
    ensures x <= y && z <= y ==> RoundedMean3(x, y, z) <= y
    ensures x <= z && y <= z ==> RoundedMean3(x, y, z) <= z
  {
    var m, s := RoundedMean3(x, y, z), x + y + z;
    assert 0 <= s + 1 - 3 * m < 3;
  }

  predicate SameLength3(x: JointVector, y: JointVector, z: JointVector)
  {
    |x| == |y| == |z|
  }

  /** `np.round(np.mean([x, y, z], axis=0))`: the componentwise rounded mean. */
  function MeanVector(x: JointVector, y: JointVector, z: JointVector): (v: JointVector)
    requires SameLength3(x, y, z)
    ensures |v| == |x|
    ensures forall j :: 0 <= j < |x| ==> 3 * v[j] - 1 <= x[j] + y[j] + z[j] <= 3 * v[j] + 1
  {
    seq(|x|, j requires 0 <= j < |x| => RoundedMean3(x[j], y[j], z[j]))
  }

  /** The state `_record` keeps across iterations: the raw samples read so far
      (`positions_buffer`) and the smoothed waypoints (`current_recording`). */
  datatype Recorder = Recorder(buffer: seq<JointVector>, recording: seq<JointVector>)

  /** The state at the start of a recording session. */
  const Start := Recorder([], [])

  /** One sampling tick of `_record`. A failed read (`None`) changes nothing. A
      successful read is appended to the buffer; once the buffer holds three or
      more samples, the rounded mean of the last three is appended to the
      recording. When the last three samples differ in length `np.mean` raises
      after the append, so only the buffer grows. */
  function Sample(r: Recorder, read: Option<JointVector>): (r': Recorder)
    ensures read.None? ==> r' == r
    ensures read.Some? ==> r'.buffer == r.buffer + [read.value]
    ensures |r.recording| <= |r'.recording| <= |r.recording| + 1
    ensures r'.recording[..|r.recording|] == r.recording
    ensures |r'.recording| == |r.recording| + 1 <==>
      read.Some? && |r'.buffer| >= Window && LastThreeAligned(r'.buffer)
    ensures |r'.recording| == |r.recording| + 1 ==>
      var n := |r'.buffer|;
      r'.recording[|r.recording|] == MeanVector(r'.buffer[n - 3], r'.buffer[n - 2], r'.buffer[n - 1])
  {
    match read
    case None => r
    case Some(p) =>
      var buffer := r.buffer + [p];
      var n := |buffer|;
      if n >= Window && LastThreeAligned(buffer) then
        Recorder(buffer, r.recording + [MeanVector(buffer[n - 3], buffer[n - 2], buffer[n - 1])])
      else
        Recorder(buffer, r.recording)
  }

  /** The last three samples of a buffer have the same number of joints. */
  predicate LastThreeAligned(buffer: seq<JointVector>)
  {
    |buffer| >= 3 && SameLength3(buffer[|buffer| - 3], buffer[|buffer| - 2], buffer[|buffer| - 1])
  }

  /** The successful readings, in order. */
  function Successes(readings: seq<Option<JointVector>>): (s: seq<JointVector>)
    ensures |s| <= |readings|
  {
    if |readings| == 0 then []
    else
      var last := readings[|readings| - 1];
      Successes(readings[..|readings| - 1]) + (if last.Some? then [last.value] else [])
  }

  /** All samples have the same number of joints, as readings of one bus do. */
  predicate Uniform(samples: seq<JointVector>)
  {
    forall k, l :: 0 <= k < |samples| && 0 <= l < |samples| ==> |samples[k]| == |samples[l]|
  }

  /** The moving average written directly: waypoint `k` is the rounded mean of
      samples `k`, `k + 1` and `k + 2`. */
  function SmoothedReference(samples: seq<JointVector>): (out: seq<JointVector>)
    requires Uniform(samples)
  {
    if |samples| < Window then []
    else
      seq(|samples| - 2, k requires 0 <= k < |samples| - 2 =>
        MeanVector(samples[k], samples[k + 1], samples[k + 2]))
  }

  /** Every prefix of a uniform buffer is uniform. */
  lemma UniformPrefix(samples: seq<JointVector>, p: JointVector)
    requires Uniform(samples + [p])
    ensures Uniform(samples)
  {
    var b := samples + [p];
    forall k, l | 0 <= k < |samples| && 0 <= l < |samples|
      ensures |samples[k]| == |samples[l]|
    {
      assert samples[k] == b[k] && samples[l] == b[l];
    }
  }

  /** Past the first window, one more sample appends the mean of the newest
      three to the windows already there. */
  lemma SmoothedReferenceGrows(samples: seq<JointVector>, p: JointVector)
    requires Uniform(samples + [p]) && Uniform(samples) && |samples| >= Window
    ensures var b := samples + [p];
      SmoothedReference(b) == SmoothedReference(samples) + [MeanVector(b[|b| - 3], b[|b| - 2], b[|b| - 1])]
  {
    var b := samples + [p];
    var n := |b|;
    var lhs, prev := SmoothedReference(b), SmoothedReference(samples);
    assert |lhs| == |prev| + 1;
    forall k | 0 <= k < |prev|
      ensures lhs[k] == prev[k]
    {
      assert b[k] == samples[k] && b[k + 1] == samples[k + 1] && b[k + 2] == samples[k + 2];
    }
    SnocEqual(lhs, prev, lhs[|prev|]);
  }

  /** A sequence that agrees with `prev` and then ends in `last` is `prev + [last]`. */
  lemma SnocEqual<T>(s: seq<T>, prev: seq<T>, last: T)
    requires |s| == |prev| + 1 && s[|prev|] == last
    requires forall k :: 0 <= k < |prev| ==> s[k] == prev[k]
    ensures s == prev + [last]
  {
  }

  /** Appending one sample to a uniform buffer appends one window to the reference. */
  lemma SmoothedReferenceSnoc(samples: seq<JointVector>, p: JointVector)
    requires Uniform(samples + [p])
    ensures Uniform(samples)
    ensures |samples + [p]| >= Window ==> LastThreeAligned(samples + [p])
    ensures SmoothedReference(samples + [p]) ==
      if |samples + [p]| < Window then []
      else
        var b := samples + [p];
        var n := |b|;
        SmoothedReference(samples) + [MeanVector(b[n - 3], b[n - 2], b[n - 1])]
  {
    var b := samples + [p];
    UniformPrefix(samples, p);
    if |b| >= Window {
      var n := |b|;
      assert |b[n - 3]| == |b[n - 1]| && |b[n - 2]| == |b[n - 1]|;
      if |samples| < Window {
        assert SmoothedReference(b)[0] == MeanVector(b[0], b[1], b[2]);
      } else {
        SmoothedReferenceGrows(samples, p);
      }
    }
  }

  /** What the recording loop keeps true: never more waypoints than windows,
      and for uniform samples exactly the moving average. */
  ghost predicate Smoothed(r: Recorder)
  {
    && |r.recording| <= (if |r.buffer| < Window then 0 else |r.buffer| - 2)
    && (Uniform(r.buffer) ==> r.recording == SmoothedReference(r.buffer))
  }

  /** A successful read on a uniform buffer extends the moving average by the
      window it completes, if any. */
  lemma SampleExtendsAverage(r: Recorder, p: JointVector)
    requires Uniform(r.buffer + [p]) && Uniform(r.buffer)
    requires r.recording == SmoothedReference(r.buffer)
    ensures Sample(r, Some(p)).recording == SmoothedReference(r.buffer + [p])
  {
    var b, next := r.buffer + [p], Sample(r, Some(p));
    SmoothedReferenceSnoc(r.buffer, p);
    if |b| >= Window {
      var n := |b|;
      var m := MeanVector(b[n - 3], b[n - 2], b[n - 1]);
      PrefixThenLast(next.recording, r.recording, m);
    } else {
      PrefixThenLast(next.recording, r.recording, []);
    }
  }

  /** A sequence made of `prev` followed by at most one more element. */
  lemma PrefixThenLast<T>(s: seq<T>, prev: seq<T>, last: T)
    requires |prev| <= |s| <= |prev| + 1 && s[..|prev|] == prev
    ensures |s| == |prev| ==> s == prev
    ensures |s| == |prev| + 1 && s[|prev|] == last ==> s == prev + [last]
  {
    if |s| == |prev| {
      assert s == s[..|prev|];
    }
  }

  /** One sampling tick keeps the recording the moving average of the buffer. */
  lemma SampleKeepsSmoothed(r: Recorder, read: Option<JointVector>)
    requires Smoothed(r)
    ensures Smoothed(Sample(r, read))
  {
    if read.Some? && Uniform(r.buffer + [read.value]) {
      UniformPrefix(r.buffer, read.value);
      SampleExtendsAverage(r, read.value);
    }
  }

  /** Successes of a longer prefix of the reads. */
  lemma SuccessesSnoc(readings: seq<Option<JointVector>>, i: nat)
    requires i < |readings|
    ensures Successes(readings[..i + 1]) ==
      Successes(readings[..i]) + (if readings[i].Some? then [readings[i].value] else [])
  {
    assert readings[..i + 1][..i] == readings[..i];
  }

  /** A recording session (`record` followed by the `_record` loop) over the
      sequence of bus reads it performs. The buffer collects every successful
      read; with uniform reads the recording is exactly the three-sample moving
      average of the buffer, so it holds two waypoints fewer than the buffer. */
  method RecordSession(readings: seq<Option<JointVector>>) returns (buffer: seq<JointVector>, recording: seq<JointVector>)
    ensures buffer == Successes(readings)
    ensures |recording| <= if |buffer| < Window then 0 else |buffer| - 2
    ensures Uniform(buffer) ==> recording == SmoothedReference(buffer)
  {
    var r := Start;
    var i := 0;
    while i < |readings|
      invariant 0 <= i <= |readings|
      invariant r.buffer == Successes(readings[..i])
      invariant Smoothed(r)
    {
      SuccessesSnoc(readings, i);
      SampleKeepsSmoothed(r, readings[i]);
      r := Sample(r, readings[i]);
      i := i + 1;
    }
    assert readings[..|readings|] == readings;
    buffer, recording := r.buffer, r.recording;
  }

  /** Three one-joint samples 10, 20, 30 give one waypoint, 20; two samples give none. */
  lemma SmoothingExample()
    ensures Sample(Sample(Start, Some([10])), Some([20])).recording == []
    ensures Sample(Sample(Sample(Start, Some([10])), Some([20])), Some([30])).recording == [[20]]
    ensures Sample(Sample(Sample(Start, Some([10])), None), Some([20])).recording == []
  {
    RoundedMean3Reference(10, 20, 30);
    var r := Sample(Sample(Sample(Start, Some([10])), Some([20])), Some([30]));
    assert r.buffer == [[10], [20], [30]];
    assert MeanVector([10], [20], [30]) == [20];
  }

  /** `edit_recording` with the two y/n answers as booleans: the leading trim
      drops the first three frames (all of them when there are at most three);
      the trailing trim then drops the last three, but only when more than
      three frames remain. */
  function Trim(rec: seq<JointVector>, trimStart: bool, trimEnd: bool): (r: seq<JointVector>)
    ensures var lo := if trimStart && |rec| >= TrimFrames then TrimFrames else if trimStart then |rec| else 0;
      lo + |r| <= |rec| && r == rec[lo..lo + |r|]
    ensures trimStart && |rec| <= TrimFrames ==> r == []
    ensures !trimEnd ==> |r| == |rec| - (if trimStart && |rec| >= TrimFrames then TrimFrames else if trimStart then |rec| else 0)
    ensures trimEnd && !trimStart ==> |r| == (if |rec| > TrimFrames then |rec| - TrimFrames else |rec|)
    ensures trimEnd && trimStart && |rec| > TrimFrames ==>
      |r| == (if |rec| - TrimFrames > TrimFrames then |rec| - 2 * TrimFrames else |rec| - TrimFrames)
    ensures |rec| > 0 && |r| == 0 ==> trimStart && |rec| <= TrimFrames
  {
    if |rec| == 0 then rec
    else
      var afterStart := if !trimStart then rec else if |rec| <= TrimFrames then [] else rec[TrimFrames..];
      if trimEnd && |afterStart| > TrimFrames then afterStart[..|afterStart| - TrimFrames] else afterStart
  }

  /** Ten frames with both trims keep frames 3 to 6; four frames keep one. */
  lemma TrimExamples(rec: seq<JointVector>)
    ensures |rec| == 10 ==> Trim(rec, true, true) == rec[3..7]
    ensures |rec| == 4 ==> Trim(rec, false, true) == rec[..1]
    ensures |rec| == 6 ==> Trim(rec, true, true) == rec[3..]
  {
  }
}
