# Drag-teaching core of the STS3215 arm, in Dafny

This project models the pure logic of the drag-teaching program for a
six-servo STS3215 arm (`agent_demo_20240527/utils_drag_teaching.py`). In that
program an operator moves the arm by hand while the program samples the joint
positions, edits the recording, stores it in one of ten action slots, and plays
it back smoothly.

The model covers five parts.

- **Interpolation** (`Easing`). This is the quadratic ease-in-out curve and
  `interpolate_positions`. The arithmetic is exact rational arithmetic.
  `np.round` is round-half-to-even (`Rounding`).
- **Playback planning** (`Playback`). The step count is 3, 5 or 7, chosen by
  the largest joint difference of a waypoint pair. The speed factor is clamped
  to [0.5, 2.0]. `BASE_SPEED` is truncated, and each frame waits `0.03 / s`.
  The planned bus writes are the acceleration, the goal speed, and then every
  interpolated `Goal_Position` vector of the pair loop, in order.
- **Recording** (`Recording`). `_record` performs one sampling tick per bus
  read. A read is `None` when it failed. Once three or more samples are
  buffered, the tick appends the rounded mean of the last three.
  `edit_recording` then trims the recording.
- **Saving** (`ActionLibrary.Save`). This covers the slot prompt, the default
  name and overwriting.
- **Loading** (`ActionLibrary`). `LoadAsWritten` models `load_from_local` as
  the code runs it. `Load` models the evident intent: an all-or-nothing check,
  and the library is left unchanged when a file is refused.

The prompt answers, the bus reads and the clock reading are parameters. The
bus writes are returned as data.

The modules are `Common` (shared types), `Rounding`, `Slots` (slot-number
parsing and decimal rendering), `Easing`, `Recording`, `ActionLibrary` and
`Playback`.

Four behaviours of the code are easy to misread, and the model follows the
code in each:

- `BASE_SPEED` is `int(8000 * s)`. This truncates rather than rounds
  (`Playback.BaseSpeedTruncates`).
- A playback stops at the first waypoint pair that raises, because the whole
  pair loop is inside one `try`. A failed bus write would also end playback.
- The trailing trim leaves a recording of at least one frame, not three. It
  only applies while more than three frames remain.
- The smoothing window is fixed at three samples. Short recordings produce
  nothing until the third sample arrives.

## Model

| member | source | states |
|---|---|---|
| Rounding.RoundHalfEven | agent_demo_20240527/utils_drag_teaching.py:197 | the result is within one half of `x`, and is even when `x` lies exactly halfway between two integers (`np.round`) |
| Rounding.RoundMonotone | agent_demo_20240527/utils_drag_teaching.py:197 | rounding never reverses the order of two values |
| Rounding.RoundWithin | agent_demo_20240527/utils_drag_teaching.py:197 | a value between two integers rounds to an integer between them |
| Slots.Decimal | agent_demo_20240527/utils_drag_teaching.py:149 | the rendering of `n` is a digit string with no leading zero whose value is `n` |
| Slots.ParseSlot | agent_demo_20240527/utils_drag_teaching.py:143-145 | an answer is accepted exactly when it is all digits and its value is between 1 and 10; the slot is that value |
| Slots.DigitsValue | agent_demo_20240527/utils_drag_teaching.py:144 | `int(s)` of a run of `n` digits is below `10^n` |
| Slots.DigitsValueLeadingZero | agent_demo_20240527/utils_drag_teaching.py:144 | a leading zero does not change the value, so "03" means slot 3 |
| Slots.ParseSlotOfDecimal | agent_demo_20240527/utils_drag_teaching.py:144-145 | the decimal rendering of a slot parses back to that slot |
| Slots.ParseSlotExamples | agent_demo_20240527/utils_drag_teaching.py:144 | "3" and "03" give 3 and "10" gives 10; "0", "11", "", "-3" and " 3" are refused |
| Slots.KeySlot | agent_demo_20240527/utils_drag_teaching.py:176 | a key names a slot only when it is that slot's canonical decimal rendering |
| Slots.KeySlotOfDecimal | agent_demo_20240527/utils_drag_teaching.py:162 | the key `json.dump` writes for a slot reads back as that slot |
| Slots.DecimalInjective | agent_demo_20240527/utils_drag_teaching.py:162 | distinct slots are written under distinct keys |
| Easing.Ease | agent_demo_20240527/utils_drag_teaching.py:184-188 | on [0, 1] the curve stays in [0, 1], is below one half before one half and at least one half after, and passes through 0, 1/2 and 1 at 0, 1/2 and 1 |
| Easing.EaseMonotone | agent_demo_20240527/utils_drag_teaching.py:184-188 | the curve never decreases on [0, 1] |
| Easing.EaseSymmetric | agent_demo_20240527/utils_drag_teaching.py:184-188 | ease-out mirrors ease-in: `ease(1 - t) = 1 - ease(t)` |
| Easing.ParamEnds | agent_demo_20240527/utils_drag_teaching.py:194 | the first step has parameter 0 and the last has parameter 1 |
| Easing.ParamMirror | agent_demo_20240527/utils_drag_teaching.py:194 | step `steps - 1 - i` has parameter `1 - t_i` |
| Easing.ParamOrder | agent_demo_20240527/utils_drag_teaching.py:194 | parameters increase with the step index and stay within [0, 1] |
| Easing.BlendJoint | agent_demo_20240527/utils_drag_teaching.py:196-197 | one joint is the integer within one half of the exact position `x + (y - x) e` |
| Easing.Blend | agent_demo_20240527/utils_drag_teaching.py:196-197 | one interpolated vector has as many joints as the endpoints, each blended on its own |
| Easing.Frames | agent_demo_20240527/utils_drag_teaching.py:192-197 | after `count` turns of the loop, `result` holds `count` vectors, each as long as the endpoints |
| Easing.FramesAt | agent_demo_20240527/utils_drag_teaching.py:192-197 | the vector appended in turn `i` stays at index `i`: it is the blend at the eased parameter `i / (steps - 1)` |
| Easing.Interpolate | agent_demo_20240527/utils_drag_teaching.py:190-198 | `steps` vectors, each as long as the endpoints; the first is exactly the start and the last exactly the end |
| Easing.EndpointBlends | agent_demo_20240527/utils_drag_teaching.py:196-197 | curve value 0 reproduces the start vector and curve value 1 the end vector exactly |
| Easing.InterpolateAt | agent_demo_20240527/utils_drag_teaching.py:193-197 | joint `j` of vector `i` is `round(a_j + (b_j - a_j) * ease(i / (steps - 1)))` |
| Easing.BlendWithin | agent_demo_20240527/utils_drag_teaching.py:196-197 | a joint blended with a curve value in [0, 1] lies between its two endpoint values |
| Easing.BlendMonotone | agent_demo_20240527/utils_drag_teaching.py:196-197 | a larger curve value moves a joint further from its start, never backwards |
| Easing.InterpolateWithin | agent_demo_20240527/utils_drag_teaching.py:190-198 | every interpolated joint lies between that joint's start and end values, so nothing overshoots |
| Easing.InterpolateMonotone | agent_demo_20240527/utils_drag_teaching.py:190-198 | every joint moves monotonically from its start value towards its end value across the steps |
| Easing.InterpolateReverse | agent_demo_20240527/utils_drag_teaching.py:190-198 | interpolating from `b` to `a` gives exactly the interpolation from `a` to `b` in reverse order |
| Easing.MidpointTiesToEven | agent_demo_20240527/utils_drag_teaching.py:197 | with three steps the middle vector of 0→1 is 0 and of 0→3 is 2 (the ties go to even), and 100→0 passes through 50 |
| Recording.RoundedMean3 | agent_demo_20240527/utils_drag_teaching.py:98 | three times the rounded mean is within one of the sum of the three samples |
| Recording.RoundedMean3Reference | agent_demo_20240527/utils_drag_teaching.py:98 | the rounded mean equals the integer formula `(x + y + z + 1) div 3` and lies between the smallest and largest sample |
| Recording.MeanVector | agent_demo_20240527/utils_drag_teaching.py:98 | each joint of the smoothed vector is the rounded mean of that joint in the three samples |
| Recording.Sample | agent_demo_20240527/utils_drag_teaching.py:93-101 | a failed read changes nothing; a successful read is buffered; the recording only ever grows by at most one vector, and it grows exactly when three or more aligned samples are buffered, by the mean of the last three |
| Recording.SmoothedReferenceSnoc | agent_demo_20240527/utils_drag_teaching.py:96-99 | one more sample appends exactly one more window mean to the moving average |
| Recording.SmoothedReferenceGrows | agent_demo_20240527/utils_drag_teaching.py:96-99 | past the first window, one more sample keeps every earlier window mean and appends the mean of the newest three |
| Recording.SampleExtendsAverage | agent_demo_20240527/utils_drag_teaching.py:94-99 | on uniform samples, a successful read turns the moving average of the old buffer into the moving average of the new one |
| Recording.SampleKeepsSmoothed | agent_demo_20240527/utils_drag_teaching.py:90-101 | every sampling tick keeps the recording equal to the three-sample moving average of the buffer |
| Recording.RecordSession | agent_demo_20240527/utils_drag_teaching.py:79-107 | over any sequence of reads, the buffer holds exactly the successful reads; the recording has at most `buffer - 2` vectors, and for uniform reads it is exactly the moving average |
| Recording.SmoothingExample | agent_demo_20240527/utils_drag_teaching.py:96-99 | samples 10, 20, 30 give the single waypoint 20; two samples, or a failed read between them, give none |
| Recording.Trim | agent_demo_20240527/utils_drag_teaching.py:124-135 | the result is a contiguous slice starting after the dropped frames; it is empty exactly when the leading trim meets three or fewer frames; the lengths for each combination of answers are stated |
| Recording.TrimExamples | agent_demo_20240527/utils_drag_teaching.py:130-135 | 10 frames with both trims keep frames 3..6; 4 frames with the trailing trim keep one; 6 frames with both trims keep the last three |
| ActionLibrary.Save | agent_demo_20240527/utils_drag_teaching.py:138-151 | an empty recording or an invalid slot answer leaves the library unchanged; otherwise the slot is (over)written with the recording, the given name or `Action_n`, and the timestamp, and every other slot is unchanged |
| ActionLibrary.SaveExamples | agent_demo_20240527/utils_drag_teaching.py:143-150 | slot "3" with no name stores `Action_3`; slot "11" or an empty recording changes nothing |
| ActionLibrary.ScanAsWritten | agent_demo_20240527/utils_drag_teaching.py:173-176 | the loop as written finishes without error only on an empty object; once an entry passes both checks and is inserted, the next iterator step raises the size-change error |
| ActionLibrary.ScanAsWrittenOnlyEmpty | agent_demo_20240527/utils_drag_teaching.py:173-176 | the validation loop as written gets through exactly the empty object |
| ActionLibrary.LoadAsWritten | agent_demo_20240527/utils_drag_teaching.py:167-180 | as written, any non-empty file is refused and leaves the library as it was; an empty file empties it |
| ActionLibrary.SerializeUpTo | agent_demo_20240527/utils_drag_teaching.py:158-162 | every written entry has a canonical slot key of a saved slot up to `k` and holds that slot's action |
| ActionLibrary.Serialize | agent_demo_20240527/utils_drag_teaching.py:158-162 | every entry `json.dump` writes is valid, is keyed by a saved slot, and holds that slot's positions, name and timestamp |
| ActionLibrary.Build | agent_demo_20240527/utils_drag_teaching.py:173-177 | the library a valid file describes is empty exactly for an empty file and holds the slot of every entry |
| ActionLibrary.BuildDomain | agent_demo_20240527/utils_drag_teaching.py:173-177 | the slots of a loaded library are exactly the slots the file's keys name |
| ActionLibrary.BuildLastWins | agent_demo_20240527/utils_drag_teaching.py:172-177 | a slot holds the action of the last entry for its key |
| ActionLibrary.Validate | agent_demo_20240527/utils_drag_teaching.py:173-175 | no error is reported exactly when every entry has positions and a slot key |
| ActionLibrary.Load | agent_demo_20240527/utils_drag_teaching.py:167-180 | all or nothing: a file is refused exactly when some entry is invalid, and otherwise gives the library it describes |
| ActionLibrary.Reload | agent_demo_20240527/utils_drag_teaching.py:177-180 | a refused file leaves the current library in place; an accepted file replaces it by the library the file describes |
| ActionLibrary.BuildSerializeUpTo | agent_demo_20240527/utils_drag_teaching.py:158-177 | reading back the written slots up to `k` gives exactly those slots |
| ActionLibrary.LoadSerializeRoundTrip | agent_demo_20240527/utils_drag_teaching.py:158-177 | loading the file a library was written to gives back that library |
| ActionLibrary.AsWrittenNeverRestores | agent_demo_20240527/utils_drag_teaching.py:167-180 | as written, the file of any non-empty library is refused and the library in memory stays, while the intended load gives the saved library back |
| ActionLibrary.SavedActionNotReloadedAsWritten | agent_demo_20240527/utils_drag_teaching.py:173-177 | an action saved at slot 3 is lost by the as-written load on the next start-up and restored by the intended one |
| Playback.MaxAbsDiffIsMax | agent_demo_20240527/utils_drag_teaching.py:218-219 | `MaxAbsDiff` bounds every joint's absolute difference and is attained by one of them |
| Playback.StepCount | agent_demo_20240527/utils_drag_teaching.py:220-225 | the step count is 3, 5 or 7 |
| Playback.StepCountThresholds | agent_demo_20240527/utils_drag_teaching.py:220-225 | 3 exactly below 100, 5 exactly in [100, 300), 7 from 300 on; a larger move never gets fewer steps |
| Playback.ClampSpeed | agent_demo_20240527/utils_drag_teaching.py:208 | the factor lands in [0.5, 2.0]; it is kept when already in range and pinned to the nearer bound otherwise |
| Playback.ClampSpeedIdempotent | agent_demo_20240527/utils_drag_teaching.py:208 | clamping twice is clamping once |
| Playback.Truncate | agent_demo_20240527/utils_drag_teaching.py:213 | `int()` on a float truncates toward zero |
| Playback.BaseSpeed | agent_demo_20240527/utils_drag_teaching.py:213 | the goal speed is the integer part of `8000 s`, within [4000, 16000] for a clamped factor |
| Playback.BaseSpeedTruncates | agent_demo_20240527/utils_drag_teaching.py:213 | factor 0.99995 gives 7999, not the rounded 8000 |
| Playback.FrameDelay | agent_demo_20240527/utils_drag_teaching.py:228 | the pause times the factor is 0.03 s; for a clamped factor it lies in [0.015, 0.06] |
| Playback.Segment | agent_demo_20240527/utils_drag_teaching.py:216-226 | a pair's goals number its step count, start at the first waypoint and end at the second |
| Playback.PairPlayable | agent_demo_20240527/utils_drag_teaching.py:216-219 | a pair is got through when both vectors have the same non-zero joint count |
| Playback.PairsPlayed | agent_demo_20240527/utils_drag_teaching.py:210-230 | the loop gets through a run of playable pairs and stops at the last pair or at the first pair that raises |
| Playback.PairsPlayedIsFirstStop | agent_demo_20240527/utils_drag_teaching.py:210-230 | the number of pairs played is exactly the index of the first stopping pair |
| Playback.PairsPlayedCovers | agent_demo_20240527/utils_drag_teaching.py:210-230 | a playable pair preceded only by playable pairs is played |
| Playback.PairsPlayedExample | agent_demo_20240527/utils_drag_teaching.py:215-226 | with waypoints of 2, 2 and 3 joints, the loop plays the first pair in three steps and stops at the second without completing |
| Playback.SegmentsAt | agent_demo_20240527/utils_drag_teaching.py:215-226 | the goals of played pair `k` are exactly the interpolation from waypoint `k` to waypoint `k + 1` |
| Playback.SegmentsEnds | agent_demo_20240527/utils_drag_teaching.py:215-226 | the goals of played pair `k` run from waypoint `k` to waypoint `k + 1` |
| Playback.GoalPlan | agent_demo_20240527/utils_drag_teaching.py:210-230 | a playback of at most one waypoint writes no goal; the loop completes exactly when every waypoint pair is playable |
| Playback.SegmentsPrefixLength | agent_demo_20240527/utils_drag_teaching.py:215-228 | the goals before pair `k` number the step counts of the earlier pairs |
| Playback.GoalPlanLayout | agent_demo_20240527/utils_drag_teaching.py:215-228 | the goals of pair `k` appear contiguously at its offset and are exactly that pair's interpolation |
| Playback.GoalPlanCount | agent_demo_20240527/utils_drag_teaching.py:215-230 | the number of goal writes is the sum of the step counts of the pairs played |
| Playback.GoalPlanSeams | agent_demo_20240527/utils_drag_teaching.py:215-228 | consecutive pairs meet: the last goal of pair `k` and the first goal of pair `k + 1` are both waypoint `k + 1` |
| Playback.GoalPlanInRange | agent_demo_20240527/utils_drag_teaching.py:215-228 | no goal lies outside a range that contains every recorded waypoint |
| Playback.PlaybackWrites | agent_demo_20240527/utils_drag_teaching.py:211-228 | the writes are the acceleration, the base speed, and then every goal in order |
| Playback.SpeedFactor | agent_demo_20240527/utils_drag_teaching.py:207-208 | an empty answer means 1.0; an in-range answer is kept; an answer below 0.5 plays at 0.5 and one above 2.0 at 2.0 |
| Playback.PlayAction | agent_demo_20240527/utils_drag_teaching.py:207-230 | the factor is the answer, 1.0 when empty, pinned into [0.5, 2.0] at the nearer bound; the pause, the base speed and the write sequence follow from it and from the pair loop; completion is the loop's |
| Playback.Play | agent_demo_20240527/utils_drag_teaching.py:200-235 | an invalid slot answer and an empty slot are refused with distinct errors; a valid answer naming a saved action always plays it, and a success plays exactly that action |
| Playback.PlayShortActionWritesNoGoal | agent_demo_20240527/utils_drag_teaching.py:209-215 | an action with at most one waypoint writes only the acceleration and the speed |

## Left out

- Bus I/O, the serial port, the motor configuration and `config.json`. These are the calls into the motor-bus library. Reads become an `Option<JointVector>` parameter, and writes are returned as a list of `BusWrite` values.
- The recording thread, `stop_record`'s join, and the sampling-interval timing. These are concurrency and clocks. A session is modelled as the sequence of reads it performs.
- The `time.sleep` between goal writes. `FrameDelay` is computed but no time passes.
- The console menu and prompt loop, and torque on/off. These are user interface with no logic of interest.
- JSON text, file existence and file-system errors. A persisted file is modelled as its decoded sequence of key/value pairs.
- `int32` wrap-around and floating-point rounding error. The model uses exact integers and rationals. Recorded encoder values are far inside the 32-bit range.
- Playback.PairPlayable: numpy broadcasting is not modelled. A pair in which one vector has a single joint broadcasts in numpy and is played, while the model treats every pair with unequal or empty vectors as raising; Playback.PairsPlayed, Playback.GoalPlan and Playback.PlayAction inherit this.
- Slots.ParseSlot: `str.isdigit` accepts non-ASCII digits (such as `'²'`), but the model accepts only `'0'..'9'`.
- ActionLibrary.IsIntLiteral: `int()` also accepts surrounding blanks and `_` digit separators. The model does not.
- ActionLibrary.Load: the intended load accepts only keys that are canonical slot renderings `"1"`..`"10"`. These are the keys `json.dump` writes. `int(key)` would also accept keys like `"03"` or `"42"`.
- Playback.SpeedFactor: a speed answer that is not a number raises in `float()`. That exception is outside the `try` and ends the menu loop, so it is not modelled.
- Playback.SpeedFactor: `float()` also accepts "nan", "inf" and "-inf", which `Option<real>` cannot represent. "nan" plays at 2.0, because `min(2.0, nan)` is 2.0. "inf" and "-inf" clamp to 2.0 and 0.5, as any answer above 2.0 or below 0.5 does in the model.
- A bus write that raises ends playback like an unplayable pair. Bus failures are not a model input, so only the pair failures are modelled.
- A recording tick whose last three samples have different joint counts raises inside `np.mean` after the sample was buffered. The model keeps the buffered sample and adds no waypoint. The 0.1-second sleep after the error is left out.

## Findings

| source | as written | input that shows it | evidently intended | confidence | as-written member | corrected member |
|---|---|---|---|---|---|---|
| agent_demo_20240527/utils_drag_teaching.py:173-177 | the validation loop inserts `data[int(key)]` into the dict it is iterating. The next step of the iterator raises `RuntimeError`, so every non-empty file is refused and the saved actions are never reloaded | a file holding `{"3": {"positions": [[1,2,3],[4,5,6]], "name": "Action_3", ...}}`, exactly what `save_recording` writes | validate every entry, then replace the library by the entries keyed by slot number; refuse the whole file otherwise | high, not executed | ActionLibrary.LoadAsWritten, ActionLibrary.AsWrittenNeverRestores | ActionLibrary.Load, ActionLibrary.LoadSerializeRoundTrip |
