/** The person-detection task of the robot (task_thermaldecoder).
 *
 *  Every cycle the task first honours a pending reset request, then, when a
 *  thermal frame is available, drains its 64 readings one cell at a time.
 *  Each cell is either ignored (hunting suppressed), accumulated into the
 *  ambient baseline (calibrating), compared against the baseline (looking for
 *  a person) or compared against the truncated `high_v` (tracking).  At the end
 *  of the frame the task either emits a direction code or advances the
 *  calibration, averaging the baseline after 50 frames.
 *
 *  The pure functions below (Reset, Cell, ScanFrom, EndOfFrame, Next) give the
 *  meaning of one cycle on a value `State`; the class `DecoderTask` holds the
 *  task's locals in place and its `Step` method is proved to compute `Next`.
 *  Queues are first-in first-out sequences: "any" is non-emptiness, "get"
 *  removes the head and "put" appends.
 */
module ThermalDecoder {
  import opened Wrappers

  const PixelCount: int := 64
  const CalibrationFrames: int := 50
  const Threshold: real := 3.0

  /** Direction codes shared with the motor driver. */
  const Left: int := 3
  const Middle: int := 1
  const Right: int := 4

  /** The implicit conversion of a float reading to `uint8_t`: truncation
   *  toward zero, then reduction to eight bits. */
  function TruncU8(x: real): (v: int)
    ensures 0 <= v < 256
    ensures 0.0 <= x < 256.0 ==> v as real <= x < v as real + 1.0
  {
    var t := if x >= 0.0 then x.Floor else -((-x).Floor);
    t % 256
  }

  /** The direction code for the index of the kept cell: the first two rows
   *  are to the right, the last two rows to the left, the rest is straight on. */
  function ColumnCode(i: int): (c: int)
    requires 0 <= i < PixelCount
    ensures c == Left || c == Middle || c == Right
    ensures c == Right <==> i < 16
    ensures c == Left <==> i >= 48
    ensures c == Middle <==> 16 <= i < 48
  {
    if i < 16 then Right else if i >= 48 then Left else Middle
  }

  /** The task's locals and the three queues it touches.  `count`, `highV` and
   *  `highI` are `uint8_t` in the task. */
  datatype State = State(
    calib: bool,
    detect: bool,
    count: int,
    highV: int,
    highI: int,
    ambient: seq<real>,
    diff: seq<real>,
    direction: seq<int>,
    resetThis: seq<int>,
    stopHunt: seq<int>)

  /** What every reachable state satisfies: 64-cell arrays, uint8 ranges, the
   *  calibration counter reaches 50 exactly when calibration is done, and a
   *  person is only ever detected after calibration. */
  predicate WellFormed(s: State)
  {
    |s.ambient| == PixelCount && |s.diff| == PixelCount &&
    0 <= s.count <= CalibrationFrames &&
    (s.calib <==> s.count == CalibrationFrames) &&
    (s.detect ==> s.calib) &&
    0 <= s.highV < 256 && 0 <= s.highI < PixelCount
  }

  /** The queue left after `n` guarded gets (each one only if the queue is
   *  non-empty). */
  function Drop(q: seq<int>, n: nat): seq<int>
  {
    if |q| <= n then [] else q[n..]
  }

  predicate IsSuffix(a: seq<int>, b: seq<int>)
  {
    |a| <= |b| && a == b[|b| - |a|..]
  }

  /** The reset branch at the top of a cycle. */
  function Reset(s: State): (r: State)
    requires WellFormed(s)
    ensures WellFormed(r)
    ensures |s.resetThis| == 0 ==> r == s
    ensures |s.resetThis| > 0 ==>
      !r.calib && !r.detect && r.count == 0 && r.highV == 0 && r.highI == 0 &&
      r.resetThis == s.resetThis[1..] && r.stopHunt == Drop(s.stopHunt, 1) &&
      r.ambient == s.ambient && r.diff == s.diff && r.direction == s.direction
  {
    if |s.resetThis| > 0 then
      s.(calib := false, detect := false, count := 0, highV := 0, highI := 0,
         resetThis := s.resetThis[1..],
         stopHunt := if |s.stopHunt| > 0 then s.stopHunt[1..] else s.stopHunt)
    else
      s
  }

  /** One pass of the per-cell loop, for cell `i` holding reading `p`. */
  function Cell(s: State, p: real, i: int): (r: State)
    requires WellFormed(s) && 0 <= i < PixelCount
    ensures WellFormed(r)
    ensures r.calib == s.calib && r.count == s.count
    ensures r.resetThis == s.resetThis && r.stopHunt == s.stopHunt
    ensures s.detect ==> r.detect
    ensures s.calib ==> r.ambient == s.ambient
    ensures |s.stopHunt| == 0 ==> r.direction == s.direction
  {
    if |s.stopHunt| > 0 then
      // suppressed: throw away one pending direction, touch nothing else
      s.(direction := if |s.direction| > 0 then s.direction[1..] else s.direction)
    else if !s.calib then
      // the first calibration frame overwrites the baseline, later ones add to it
      s.(ambient := s.ambient[i := if s.count == 0 then p else p + s.ambient[i]])
    else if !s.detect then
      var d := p - s.ambient[i];
      if d >= Threshold then
        s.(diff := s.diff[i := d], detect := true, highV := TruncU8(p), highI := i)
      else
        s.(diff := s.diff[i := d])
    else if p > s.highV as real then
      s.(highV := TruncU8(p), highI := i)
    else
      s
  }

  /** The per-cell loop over cells `i` to 63. */
  function ScanFrom(s: State, frame: seq<real>, i: int): (r: State)
    requires WellFormed(s) && |frame| == PixelCount && 0 <= i <= PixelCount
    ensures WellFormed(r)
    ensures r.calib == s.calib && r.count == s.count
    ensures r.resetThis == s.resetThis && r.stopHunt == s.stopHunt
    ensures s.detect ==> r.detect
    ensures s.calib ==> r.ambient == s.ambient
    ensures |s.stopHunt| == 0 ==> r.direction == s.direction
    decreases PixelCount - i
  {
    if i == PixelCount then s else ScanFrom(Cell(s, frame[i], i), frame, i + 1)
  }

  /** Every cell of `a` divided by `n`. */
  function Averaged(a: seq<real>, n: int): seq<real>
    requires n > 0
  {
    seq(|a|, j requires 0 <= j < |a| => a[j] / n as real)
  }

  /** The end-of-frame step: emit a direction, or advance calibration. */
  function EndOfFrame(s: State): (r: State)
    requires WellFormed(s)
    ensures WellFormed(r)
    ensures r.resetThis == s.resetThis && r.stopHunt == s.stopHunt && r.detect == s.detect
  {
    if |s.stopHunt| > 0 then
      s
    else if s.calib then
      if s.detect then
        s.(direction := s.direction + [ColumnCode(s.highI)], highV := 0, highI := 0)
      else
        s
    else
      var c := s.count + 1;
      if c >= CalibrationFrames then
        s.(count := c, ambient := Averaged(s.ambient, c), calib := true)
      else
        s.(count := c)
  }

  /** One iteration of the task's forever loop; `frame` is `None` when the
   *  thermal data queue is empty. */
  function Next(s: State, frame: Option<seq<real>>): (r: State)
    requires WellFormed(s) && (frame.Some? ==> |frame.value| == PixelCount)
    ensures WellFormed(r)
    ensures r.resetThis == Drop(s.resetThis, 1)
  {
    var t := Reset(s);
    if frame.None? then t else EndOfFrame(ScanFrom(t, frame.value, 0))
  }

  predicate AllFrames(frames: seq<seq<real>>)
  {
    forall k :: 0 <= k < |frames| ==> |frames[k]| == PixelCount
  }

  /** Several cycles, each with a frame, oldest frame first. */
  function RunFrames(s: State, frames: seq<seq<real>>): (r: State)
    requires WellFormed(s) && AllFrames(frames)
    ensures WellFormed(r)
    decreases |frames|
  {
    if |frames| == 0 then s
    else Next(RunFrames(s, frames[..|frames| - 1]), Some(frames[|frames| - 1]))
  }

  /** The sum of cell `i` over all frames. */
  function CellSum(frames: seq<seq<real>>, i: int): real
    requires AllFrames(frames) && 0 <= i < PixelCount
    decreases |frames|
  {
    if |frames| == 0 then 0.0
    else frames[|frames| - 1][i] + CellSum(frames[..|frames| - 1], i)
  }

  // ---------------------------------------------------------------------
  // Queue arithmetic

  lemma DropDrop(q: seq<int>, a: nat, b: nat)
    ensures Drop(Drop(q, a), b) == Drop(q, a + b)
  {
    if |q| > a && |q| - a > b {
      assert q[a..][b..] == q[a + b..];
    }
  }

  lemma DropIsSuffix(q: seq<int>, n: nat)
    ensures IsSuffix(Drop(q, n), q)
  {
    if |q| > n {
      assert q[n..] == q[|q| - (|q| - n)..];
    }
  }

  // ---------------------------------------------------------------------
  // Suppression

  /** While `stop_hunt` is occupied a cell only drains one pending direction. */
  lemma SuppressedCell(s: State, p: real, i: int)
    requires WellFormed(s) && 0 <= i < PixelCount && |s.stopHunt| > 0
    ensures Cell(s, p, i) == s.(direction := Drop(s.direction, 1))
  {
  }

  /** While `stop_hunt` is occupied the per-cell loop only drains pending
   *  directions, one per remaining cell. */
  lemma {:induction false} ScanSuppressed(s: State, frame: seq<real>, i: int)
    requires WellFormed(s) && |frame| == PixelCount && 0 <= i <= PixelCount
    requires |s.stopHunt| > 0
    ensures ScanFrom(s, frame, i) == s.(direction := Drop(s.direction, PixelCount - i))
    decreases PixelCount - i
  {
    if i < PixelCount {
      var c := Cell(s, frame[i], i);
      var rest: nat := PixelCount - (i + 1);
      SuppressedCell(s, frame[i], i);
      assert ScanFrom(s, frame, i) == ScanFrom(c, frame, i + 1);
      ScanSuppressed(c, frame, i + 1);
      DropDrop(s.direction, 1, rest);
      assert c.(direction := Drop(c.direction, rest)) ==
             s.(direction := Drop(s.direction, PixelCount - i));
    }
  }

  /** A suppressed frame changes nothing but the direction queue, from which
   *  it removes up to 64 pending items. */
  lemma SuppressionNoSideEffects(s: State, frame: seq<real>)
    requires WellFormed(s) && |frame| == PixelCount
    requires |Reset(s).stopHunt| > 0
    ensures Next(s, Some(frame)) == Reset(s).(direction := Drop(s.direction, PixelCount))
    ensures |s.direction| <= PixelCount ==> Next(s, Some(frame)).direction == []
  {
    ScanSuppressed(Reset(s), frame, 0);
  }

  /** One more suppressed frame drains another 64 directions. */
  lemma SuppressedStep(s: State, k: nat, frame: seq<real>)
    requires WellFormed(s) && |frame| == PixelCount
    requires |s.resetThis| == 0 && |s.stopHunt| > 0
    ensures Next(s.(direction := Drop(s.direction, PixelCount * k)), Some(frame)) ==
      s.(direction := Drop(s.direction, PixelCount * (k + 1)))
  {
    var t := s.(direction := Drop(s.direction, PixelCount * k));
    SuppressionNoSideEffects(t, frame);
    DropDrop(s.direction, PixelCount * k, PixelCount);
    assert PixelCount * k + PixelCount == PixelCount * (k + 1);
  }

  /** The last frame of a suppressed run, given the run before it. */
  lemma SuppressedRunStep(s: State, frames: seq<seq<real>>)
    requires WellFormed(s) && AllFrames(frames) && |frames| > 0
    requires var prev := frames[..|frames| - 1];
      AllFrames(prev) &&
      RunFrames(s, prev) == s.(direction := Drop(s.direction, PixelCount * (|frames| - 1)))
    requires |s.resetThis| == 0 && |s.stopHunt| > 0
    ensures RunFrames(s, frames) == s.(direction := Drop(s.direction, PixelCount * |frames|))
  {
    var k := |frames| - 1;
    SuppressedStep(s, k, frames[k]);
  }

  /** Feeding any number of frames while suppressed (and with no reset
   *  pending) leaves the detector as it was and only drains directions. */
  lemma {:induction false} SuppressedRun(s: State, frames: seq<seq<real>>)
    requires WellFormed(s) && AllFrames(frames)
    requires |s.resetThis| == 0 && |s.stopHunt| > 0
    ensures RunFrames(s, frames) == s.(direction := Drop(s.direction, PixelCount * |frames|))
    decreases |frames|
  {
    if |frames| > 0 {
      var prev := frames[..|frames| - 1];
      assert AllFrames(prev);
      SuppressedRun(s, prev);
      SuppressedRunStep(s, frames);
    }
  }

  // ---------------------------------------------------------------------
  // Calibration

  /** The per-cell loop during calibration accumulates every cell into the
   *  baseline and touches nothing else. */
  lemma {:induction false} CalibrationScan(s: State, frame: seq<real>, i: int)
    requires WellFormed(s) && |frame| == PixelCount && 0 <= i <= PixelCount
    requires !s.calib && |s.stopHunt| == 0
    ensures var r := ScanFrom(s, frame, i);
      r.direction == s.direction && r.detect == s.detect && r.diff == s.diff &&
      r.highV == s.highV && r.highI == s.highI &&
      forall k :: 0 <= k < PixelCount ==>
        r.ambient[k] == if k < i then s.ambient[k]
                        else if s.count == 0 then frame[k] else frame[k] + s.ambient[k]
    decreases PixelCount - i
  {
    if i < PixelCount {
      CalibrationScan(Cell(s, frame[i], i), frame, i + 1);
    }
  }

  /** The baseline after one calibration frame's per-cell loop. */
  function Accumulated(s: State, frame: seq<real>): seq<real>
    requires WellFormed(s) && |frame| == PixelCount
  {
    seq(PixelCount, k requires 0 <= k < PixelCount =>
      if s.count == 0 then frame[k] else frame[k] + s.ambient[k])
  }

  /** One unsuppressed calibration frame: the counter advances, the baseline
   *  accumulates (and is averaged on the 50th frame) and nothing is emitted. */
  lemma CalibrationFrame(s: State, frame: seq<real>)
    requires WellFormed(s) && |frame| == PixelCount
    requires |s.resetThis| == 0 && |s.stopHunt| == 0 && !s.calib
    ensures var t := Next(s, Some(frame));
      t.count == s.count + 1 && (t.calib <==> s.count + 1 == CalibrationFrames) &&
      !t.detect && t.direction == s.direction &&
      |t.resetThis| == 0 && |t.stopHunt| == 0 &&
      t.ambient == if t.calib then Averaged(Accumulated(s, frame), CalibrationFrames)
                   else Accumulated(s, frame)
  {
    CalibrationScan(s, frame, 0);
    var m := ScanFrom(s, frame, 0);
    var acc := Accumulated(s, frame);
    forall k | 0 <= k < PixelCount
      ensures m.ambient[k] == acc[k]
    {
    }
    assert m.ambient == acc;
    EndOfCalibrationFrame(m);
  }

  /** The end of an unsuppressed calibration frame advances the counter and,
   *  at 50, divides the baseline by it. */
  lemma EndOfCalibrationFrame(m: State)
    requires WellFormed(m) && |m.stopHunt| == 0 && !m.calib
    ensures var t := EndOfFrame(m);
      t.count == m.count + 1 && (t.calib <==> m.count + 1 == CalibrationFrames) &&
      !t.detect && t.direction == m.direction &&
      t.resetThis == m.resetThis && t.stopHunt == m.stopHunt &&
      t.ambient == if t.calib then Averaged(m.ambient, CalibrationFrames) else m.ambient
  {
  }

  /** The state facts of one calibration frame, without the baseline. */
  lemma CalibrationCount(s: State, frame: seq<real>)
    requires WellFormed(s) && |frame| == PixelCount
    requires |s.resetThis| == 0 && |s.stopHunt| == 0 && !s.calib
    ensures var t := Next(s, Some(frame));
      t.count == s.count + 1 && (t.calib <==> s.count + 1 == CalibrationFrames) &&
      !t.detect && t.direction == s.direction && |t.resetThis| == 0 && |t.stopHunt| == 0
  {
    CalibrationFrame(s, frame);
  }

  /** Still calibrating after the frames before the last one. */
  predicate Calibrating(t: State, n: int, direction: seq<int>)
  {
    !t.calib && !t.detect && t.count == n && t.direction == direction &&
    |t.resetThis| == 0 && |t.stopHunt| == 0
  }

  /** The last frame of a calibrating run, given the run before it. */
  lemma CalibrationPrefixStep(s: State, frames: seq<seq<real>>)
    requires WellFormed(s) && AllFrames(frames) && 0 < |frames| < CalibrationFrames
    requires var prev := frames[..|frames| - 1];
      AllFrames(prev) && Calibrating(RunFrames(s, prev), |frames| - 1, s.direction)
    ensures Calibrating(RunFrames(s, frames), |frames|, s.direction)
  {
    var n := |frames|;
    CalibrationCount(RunFrames(s, frames[..n - 1]), frames[n - 1]);
  }

  /** Fewer than 50 calibration frames after a fresh start leave the task
   *  calibrating, with the counter at the number of frames and nothing
   *  detected or emitted. */
  lemma {:induction false} CalibrationPrefix(s: State, frames: seq<seq<real>>)
    requires WellFormed(s) && AllFrames(frames) && |frames| < CalibrationFrames
    requires !s.calib && s.count == 0 && |s.resetThis| == 0 && |s.stopHunt| == 0
    ensures var t := RunFrames(s, frames);
      !t.calib && !t.detect && t.count == |frames| && t.direction == s.direction &&
      |t.resetThis| == 0 && |t.stopHunt| == 0
    decreases |frames|
  {
    if |frames| > 0 {
      var prev := frames[..|frames| - 1];
      assert AllFrames(prev);
      CalibrationPrefix(s, prev);
      CalibrationPrefixStep(s, frames);
    }
  }

  /** Accumulating frame `n` onto the running sum of frames 1 to `n - 1` gives
   *  the running sum of frames 1 to `n`. */
  lemma AccumulatedIsCellSum(t0: State, frames: seq<seq<real>>)
    requires WellFormed(t0) && AllFrames(frames) && |frames| > 0
    requires t0.count == |frames| - 1
    requires t0.count > 0 ==> forall k :: 0 <= k < PixelCount ==>
      t0.ambient[k] == CellSum(frames[..|frames| - 1], k)
    ensures forall k :: 0 <= k < PixelCount ==>
      Accumulated(t0, frames[|frames| - 1])[k] == CellSum(frames, k)
  {
    var n := |frames|;
    var prev := frames[..n - 1];
    var f := frames[n - 1];
    assert AllFrames(prev);
    forall k | 0 <= k < PixelCount
      ensures Accumulated(t0, f)[k] == CellSum(frames, k)
    {
      assert CellSum(frames, k) == f[k] + CellSum(prev, k);
      if n == 1 {
        assert CellSum(prev, k) == 0.0;
      }
    }
  }

  /** ... and the baseline then holds the running sum of each cell. */
  lemma {:induction false} CalibrationPrefixSums(s: State, frames: seq<seq<real>>)
    requires WellFormed(s) && AllFrames(frames) && 0 < |frames| < CalibrationFrames
    requires !s.calib && s.count == 0 && |s.resetThis| == 0 && |s.stopHunt| == 0
    ensures forall k :: 0 <= k < PixelCount ==>
      RunFrames(s, frames).ambient[k] == CellSum(frames, k)
    decreases |frames|
  {
    var n := |frames|;
    var prev := frames[..n - 1];
    assert AllFrames(prev);
    CalibrationPrefix(s, prev);
    if n > 1 {
      CalibrationPrefixSums(s, prev);
    }
    var t0 := RunFrames(s, prev);
    CalibrationFrame(t0, frames[n - 1]);
    AccumulatedIsCellSum(t0, frames);
  }

  /** After 50 unsuppressed frames from a fresh start the task is calibrated
   *  and each baseline cell is that cell's average over the 50 frames; no
   *  person was detected and no direction was emitted on the way. */
  lemma CalibrationAverages(s: State, frames: seq<seq<real>>)
    requires WellFormed(s) && AllFrames(frames) && |frames| == CalibrationFrames
    requires !s.calib && s.count == 0 && |s.resetThis| == 0 && |s.stopHunt| == 0
    ensures var t := RunFrames(s, frames);
      t.calib && t.count == CalibrationFrames && !t.detect && t.direction == s.direction &&
      forall k :: 0 <= k < PixelCount ==>
        t.ambient[k] == CellSum(frames, k) / CalibrationFrames as real
  {
    var prev := frames[..CalibrationFrames - 1];
    assert AllFrames(prev);
    CalibrationPrefix(s, prev);
    CalibrationPrefixSums(s, prev);
    var t0 := RunFrames(s, prev);
    CalibrationFrame(t0, frames[CalibrationFrames - 1]);
    AccumulatedIsCellSum(t0, frames);
  }

  lemma {:induction false} CellSumConstant(frames: seq<seq<real>>, base: seq<real>, k: int)
    requires AllFrames(frames) && 0 <= k < PixelCount && |base| == PixelCount
    requires forall j :: 0 <= j < |frames| ==> frames[j] == base
    ensures CellSum(frames, k) == |frames| as real * base[k]
    decreases |frames|
  {
    if |frames| > 0 {
      CellSumConstant(frames[..|frames| - 1], base, k);
    }
  }

  lemma AverageOfConstant(frames: seq<seq<real>>, base: seq<real>)
    requires AllFrames(frames) && |frames| == CalibrationFrames && |base| == PixelCount
    requires forall j :: 0 <= j < |frames| ==> frames[j] == base
    ensures forall k :: 0 <= k < PixelCount ==>
      CellSum(frames, k) / CalibrationFrames as real == base[k]
  {
    forall k | 0 <= k < PixelCount
      ensures CellSum(frames, k) / CalibrationFrames as real == base[k]
    {
      CellSumConstant(frames, base, k);
    }
  }

  /** Fifty identical frames give a baseline equal to that frame. */
  lemma ConstantFramesGiveBaseline(s: State, frames: seq<seq<real>>, base: seq<real>)
    requires WellFormed(s) && |base| == PixelCount
    requires |frames| == CalibrationFrames && forall j :: 0 <= j < |frames| ==> frames[j] == base
    requires !s.calib && s.count == 0 && |s.resetThis| == 0 && |s.stopHunt| == 0
    ensures RunFrames(s, frames).calib && RunFrames(s, frames).ambient == base
  {
    assert AllFrames(frames);
    CalibrationAverages(s, frames);
    AverageOfConstant(frames, base);
    var t := RunFrames(s, frames);
    assert |t.ambient| == PixelCount;
    assert forall k :: 0 <= k < PixelCount ==> t.ambient[k] == base[k];
  }

  /** The first calibration frame replaces whatever the baseline held (a
   *  reset does not clear it). */
  lemma FirstCalibrationFrameOverwrites(s: State, frame: seq<real>)
    requires WellFormed(s) && |frame| == PixelCount
    requires var r := Reset(s); !r.calib && r.count == 0 && |r.stopHunt| == 0
    ensures Next(s, Some(frame)).ambient == frame
  {
    var r := Reset(s);
    CalibrationScan(r, frame, 0);
    var t := Next(s, Some(frame));
    assert forall k :: 0 <= k < PixelCount ==> t.ambient[k] == frame[k];
  }

  /** A frame processed before calibration is done never detects a person and
   *  never puts a direction; this includes the frame that completes it. */
  lemma CalibrationEmitsNothing(s: State, frame: seq<real>)
    requires WellFormed(s) && |frame| == PixelCount
    requires !Reset(s).calib
    ensures var t := Next(s, Some(frame));
      !t.detect && IsSuffix(t.direction, s.direction) &&
      (|Reset(s).stopHunt| == 0 ==> t.direction == s.direction)
  {
    var r := Reset(s);
    if |r.stopHunt| > 0 {
      SuppressionNoSideEffects(s, frame);
      DropIsSuffix(s.direction, PixelCount);
    } else {
      CalibrationScan(r, frame, 0);
      assert s.direction == s.direction[|s.direction| - |s.direction|..];
    }
  }

  // ---------------------------------------------------------------------
  // Detection and tracking

  lemma {:induction false} DetectScan(s: State, frame: seq<real>, i: int)
    requires WellFormed(s) && |frame| == PixelCount && 0 <= i <= PixelCount
    requires s.calib && !s.detect && |s.stopHunt| == 0
    ensures ScanFrom(s, frame, i).detect <==>
      exists k :: i <= k < PixelCount && frame[k] - s.ambient[k] >= Threshold
    decreases PixelCount - i
  {
    if i < PixelCount {
      var c := Cell(s, frame[i], i);
      if frame[i] - s.ambient[i] >= Threshold {
        assert c.detect;
      } else {
        DetectScan(c, frame, i + 1);
      }
    }
  }

  /** Calibrated and not yet detecting: the frame detects a person exactly
   *  when some cell is at least the threshold above its baseline, and then
   *  one direction is emitted. */
  lemma DetectionThreshold(s: State, frame: seq<real>)
    requires WellFormed(s) && |frame| == PixelCount
    requires |s.resetThis| == 0 && |s.stopHunt| == 0 && s.calib && !s.detect
    ensures var t := Next(s, Some(frame));
      (t.detect <==> exists k :: 0 <= k < PixelCount && frame[k] - s.ambient[k] >= Threshold) &&
      (t.detect ==> t.direction == s.direction + [ColumnCode(ScanFrom(s, frame, 0).highI)]) &&
      (t.detect ==> exists k :: 0 <= k <= ScanFrom(s, frame, 0).highI && frame[k] - s.ambient[k] >= Threshold) &&
      (!t.detect ==> t.direction == s.direction)
  {
    DetectScan(s, frame, 0);
    TriggerScan(s, frame, 0);
  }

  /** A cell exactly at the threshold triggers detection. */
  lemma ThresholdIsInclusive(s: State, frame: seq<real>, k: int)
    requires WellFormed(s) && |frame| == PixelCount && 0 <= k < PixelCount
    requires |s.resetThis| == 0 && |s.stopHunt| == 0 && s.calib && !s.detect
    requires frame[k] == s.ambient[k] + Threshold
    ensures Next(s, Some(frame)).detect
  {
    DetectionThreshold(s, frame);
    assert frame[k] - s.ambient[k] >= Threshold;
  }

  /** A frame whose every cell is below baseline plus threshold detects
   *  nothing and emits nothing. */
  lemma BelowThresholdNeverDetects(s: State, frame: seq<real>)
    requires WellFormed(s) && |frame| == PixelCount
    requires |s.resetThis| == 0 && |s.stopHunt| == 0 && s.calib && !s.detect
    requires forall k :: 0 <= k < PixelCount ==> frame[k] < s.ambient[k] + Threshold
    ensures !Next(s, Some(frame)).detect && Next(s, Some(frame)).direction == s.direction
  {
    DetectionThreshold(s, frame);
  }

  /** In tracking mode the selected reading, truncated to eight bits, is at
   *  least the truncated reading of every cell scanned, and it is either the
   *  maximum carried in or the reading of a scanned cell. */
  lemma {:induction false} TrackingPicksMax(s: State, frame: seq<real>, i: int)
    requires WellFormed(s) && |frame| == PixelCount && 0 <= i <= PixelCount
    requires s.detect && |s.stopHunt| == 0
    requires forall k :: i <= k < PixelCount ==> 0.0 <= frame[k] < 256.0
    ensures var m := ScanFrom(s, frame, i);
      m.detect && s.highV <= m.highV && m.highI < PixelCount &&
      (forall k :: i <= k < PixelCount ==> TruncU8(frame[k]) <= m.highV) &&
      ((m.highV == s.highV && m.highI == s.highI) ||
       (i <= m.highI && m.highV == TruncU8(frame[m.highI])))
    decreases PixelCount - i
  {
    if i < PixelCount {
      var c := Cell(s, frame[i], i);
      var p := frame[i];
      var v := TruncU8(p);
      if p > s.highV as real {
        assert c.highV == v && c.highI == i;
        assert s.highV <= v;
      } else {
        assert c == s;
        assert v <= s.highV;
      }
      TrackingPicksMax(c, frame, i + 1);
    }
  }

  /** In tracking mode the kept index is the one carried in or a scanned cell. */
  lemma {:induction false} TrackingIndex(s: State, frame: seq<real>, i: int)
    requires WellFormed(s) && |frame| == PixelCount && 0 <= i <= PixelCount
    requires s.detect && |s.stopHunt| == 0
    ensures var m := ScanFrom(s, frame, i); m.highI == s.highI || i <= m.highI
    decreases PixelCount - i
  {
    if i < PixelCount {
      TrackingIndex(Cell(s, frame[i], i), frame, i + 1);
    }
  }

  /** On the frame that first detects a person, the kept index is at or after
   *  the trigger, the first cell at least the threshold above its baseline. */
  lemma {:induction false} TriggerScan(s: State, frame: seq<real>, i: int)
    requires WellFormed(s) && |frame| == PixelCount && 0 <= i <= PixelCount
    requires s.calib && !s.detect && |s.stopHunt| == 0
    ensures var m := ScanFrom(s, frame, i);
      m.detect ==> exists k :: i <= k <= m.highI && frame[k] - s.ambient[k] >= Threshold &&
                              (forall j :: i <= j < k ==> frame[j] - s.ambient[j] < Threshold)
    decreases PixelCount - i
  {
    if i < PixelCount {
      var c := Cell(s, frame[i], i);
      if frame[i] - s.ambient[i] >= Threshold {
        TrackingIndex(c, frame, i + 1);
        assert c.highI == i;
      } else {
        TriggerScan(c, frame, i + 1);
      }
    }
  }

  /** The trigger cell starts tracking with its own truncated reading. */
  lemma TriggerStartsTracking(s: State, frame: seq<real>, i: int)
    requires WellFormed(s) && |frame| == PixelCount && 0 <= i < PixelCount
    requires s.calib && !s.detect && |s.stopHunt| == 0
    requires forall k :: i <= k < PixelCount ==> 0.0 <= frame[k] < 256.0
    requires frame[i] - s.ambient[i] >= Threshold
    ensures var m := ScanFrom(s, frame, i);
      m.detect && i <= m.highI && m.highV == TruncU8(frame[m.highI]) &&
      forall j :: i <= j < PixelCount ==> TruncU8(frame[j]) <= m.highV
  {
    var c := Cell(s, frame[i], i);
    var m := ScanFrom(c, frame, i + 1);
    assert m == ScanFrom(s, frame, i);
    assert c.detect && c.highI == i && c.highV == TruncU8(frame[i]);
    TrackingPicksMax(c, frame, i + 1);
    forall j | i <= j < PixelCount
      ensures TruncU8(frame[j]) <= m.highV
    {
      if j == i {
        assert TruncU8(frame[j]) == c.highV;
      }
    }
  }

  /** Tracking as it runs on the frame that first detects a person, from cell
   *  `i` on: some cell `k` is the first at least the threshold above the
   *  baseline, the kept index is `k` or later, and the kept reading (that of
   *  cell `highI`, truncated) is at least the truncated reading of `k` and
   *  of every later cell. */
  predicate TrackedFromTrigger(ambient: seq<real>, frame: seq<real>, i: int, m: State)
    requires |ambient| == PixelCount && |frame| == PixelCount && 0 <= i && WellFormed(m)
  {
    m.highV == TruncU8(frame[m.highI]) &&
    exists k :: i <= k <= m.highI && frame[k] - ambient[k] >= Threshold &&
      (forall j :: i <= j < k ==> frame[j] - ambient[j] < Threshold) &&
      (forall j :: k <= j < PixelCount ==> TruncU8(frame[j]) <= m.highV)
  }

  /** A cell below the threshold before the trigger is passed over. */
  lemma QuietCellBeforeTrigger(ambient: seq<real>, frame: seq<real>, i: int, m: State)
    requires |ambient| == PixelCount && |frame| == PixelCount && 0 <= i < PixelCount && WellFormed(m)
    requires frame[i] - ambient[i] < Threshold
    requires TrackedFromTrigger(ambient, frame, i + 1, m)
    ensures TrackedFromTrigger(ambient, frame, i, m)
  {
    var k :| i + 1 <= k <= m.highI && frame[k] - ambient[k] >= Threshold &&
      (forall j :: i + 1 <= j < k ==> frame[j] - ambient[j] < Threshold) &&
      (forall j :: k <= j < PixelCount ==> TruncU8(frame[j]) <= m.highV);
    assert forall j :: i <= j < k ==> frame[j] - ambient[j] < Threshold;
  }

  /** On the frame that first detects a person, tracking starts at the
   *  trigger; cells before it are only compared against the baseline. */
  lemma {:induction false} FirstDetectionScan(s: State, frame: seq<real>, i: int)
    requires WellFormed(s) && |frame| == PixelCount && 0 <= i <= PixelCount
    requires s.calib && !s.detect && |s.stopHunt| == 0
    requires forall k :: i <= k < PixelCount ==> 0.0 <= frame[k] < 256.0
    ensures var m := ScanFrom(s, frame, i);
      m.detect ==> TrackedFromTrigger(s.ambient, frame, i, m)
    decreases PixelCount - i
  {
    if i < PixelCount {
      var c := Cell(s, frame[i], i);
      var m := ScanFrom(c, frame, i + 1);
      assert m == ScanFrom(s, frame, i);
      if frame[i] - s.ambient[i] >= Threshold {
        TriggerStartsTracking(s, frame, i);
        assert frame[i] - s.ambient[i] >= Threshold;
      } else {
        assert c.ambient == s.ambient && !c.detect;
        FirstDetectionScan(c, frame, i + 1);
        if m.detect {
          QuietCellBeforeTrigger(s.ambient, frame, i, m);
        }
      }
    }
  }

  /** The first detecting frame emits the code of cell `highI`, which is the
   *  trigger or a later cell whose reading exceeds the truncated `high_v`. */
  lemma FirstDetectionFrame(s: State, frame: seq<real>)
    requires WellFormed(s) && |frame| == PixelCount
    requires |s.resetThis| == 0 && |s.stopHunt| == 0 && s.calib && !s.detect
    requires forall k :: 0 <= k < PixelCount ==> 0.0 <= frame[k] < 256.0
    ensures var m := ScanFrom(s, frame, 0); var t := Next(s, Some(frame));
      t.detect ==> (t.direction == s.direction + [ColumnCode(m.highI)] &&
        exists k :: 0 <= k <= m.highI && frame[k] - s.ambient[k] >= Threshold &&
          (forall j :: 0 <= j < k ==> frame[j] - s.ambient[j] < Threshold) &&
          (forall j :: k <= j < PixelCount ==> TruncU8(frame[j]) <= TruncU8(frame[m.highI])))
  {
    FirstDetectionScan(s, frame, 0);
  }

  /** The comparison is of the raw reading against the truncated `high_v`, so
   *  a later cell cooler than the trigger can take over: with a baseline of
   *  27, a trigger reading of 30.7 keeps 30, and a later 30.2 replaces it. */
  lemma CoolerLaterCellTakesOver(s: State)
    requires WellFormed(s) && s.calib && !s.detect && |s.stopHunt| == 0
    requires s.ambient[0] == 27.0
    ensures var t := Cell(s, 30.7, 0); var u := Cell(t, 30.2, 60);
      t.detect && t.highV == 30 && t.highI == 0 && u.highI == 60 && 30.2 < 30.7
  {
    assert (30.7).Floor == 30;
  }

  /** At the end of a calibrated, unsuppressed frame with a detection, the
   *  code for the kept cell `highI` is appended to the direction queue and the
   *  kept reading and index are cleared; detection stays on. */
  lemma EmissionAfterFrame(s: State, frame: seq<real>)
    requires WellFormed(s) && |frame| == PixelCount
    requires |s.resetThis| == 0 && |s.stopHunt| == 0 && s.calib
    ensures var m := ScanFrom(s, frame, 0); var t := Next(s, Some(frame));
      t.detect == m.detect &&
      (t.detect ==> t.direction == s.direction + [ColumnCode(m.highI)] &&
                    t.highV == 0 && t.highI == 0) &&
      (!t.detect ==> t.direction == s.direction)
  {
  }

  /** A second reset request handled with no frame in between leaves the
   *  detector exactly as the first one did. */
  lemma ResetTwiceSameAsOnce(s: State)
    requires WellFormed(s) && |s.resetThis| >= 2
    ensures var once := Next(s, None); var twice := Next(once, None);
      twice.calib == once.calib && twice.detect == once.detect &&
      twice.count == once.count && twice.highV == once.highV && twice.highI == once.highI &&
      twice.ambient == once.ambient && twice.diff == once.diff &&
      twice.direction == once.direction
  {
  }

  // ---------------------------------------------------------------------
  // The task's locals, updated in place

  class DecoderTask {
    var calib: bool
    var detect: bool
    var count: int
    var highV: int
    var highI: int
    const ambient: array<real>
    const diff: array<real>
    /** The shared queues this task reads or writes. */
    var direction: seq<int>
    var resetThis: seq<int>
    var stopHunt: seq<int>

    ghost function Model(): State
      reads this, ambient, diff
    {
      State(calib, detect, count, highV, highI, ambient[..], diff[..],
            direction, resetThis, stopHunt)
    }

    ghost predicate Valid()
      reads this, ambient, diff
    {
      ambient != diff && WellFormed(Model())
    }

    /** The task's start: uncalibrated, nothing detected, empty queues.  The
     *  task leaves its arrays uninitialised; here they start at zero. */
    constructor ()
      ensures Valid() && fresh(ambient) && fresh(diff)
      ensures !calib && !detect && count == 0 && highV == 0 && highI == 0
      ensures direction == [] && resetThis == [] && stopHunt == []
    {
      calib, detect := false, false;
      count, highV, highI := 0, 0, 0;
      ambient := new real[PixelCount](_ => 0.0);
      diff := new real[PixelCount](_ => 0.0);
      direction, resetThis, stopHunt := [], [], [];
    }

    /** One iteration of the forever loop; `frame` is `None` when the thermal
     *  data queue is empty. */
    method Step(frame: Option<seq<real>>)
      requires Valid() && (frame.Some? ==> |frame.value| == PixelCount)
      modifies this, ambient, diff
      ensures Valid()
      ensures Model() == Next(old(Model()), frame)
    {
      HandleReset();
      if frame.Some? {
        var pixels := frame.value;
        ghost var start := Model();
        var i := 0;
        while i < PixelCount
          invariant 0 <= i <= PixelCount
          invariant Valid()
          invariant ScanFrom(Model(), pixels, i) == ScanFrom(start, pixels, 0)
        {
          ProcessCell(pixels[i], i);
          i := i + 1;
        }
        FinishFrame();
      }
    }

    /** The reset branch: clear the flags and counters, consume the reset
     *  request and any stop-hunting request. */
    method HandleReset()
      requires Valid()
      modifies this
      ensures Valid()
      ensures Model() == Reset(old(Model()))
    {
      if |resetThis| > 0 {
        calib := false;
        detect := false;
        count := 0;
        highV := 0;
        highI := 0;
        resetThis := resetThis[1..];
        if |stopHunt| > 0 {
          stopHunt := stopHunt[1..];
        }
      }
    }

    /** The body of the per-cell loop for reading `p` of cell `i`. */
    method ProcessCell(p: real, i: int)
      requires Valid() && 0 <= i < PixelCount
      modifies this, ambient, diff
      ensures Valid()
      ensures Model() == Cell(old(Model()), p, i)
    {
      if |stopHunt| > 0 {
        if |direction| > 0 {
          direction := direction[1..];
        }
      } else if !calib {
        if count == 0 {
          ambient[i] := p;
        } else {
          ambient[i] := p + ambient[i];
        }
      } else if !detect {
        diff[i] := p - ambient[i];
        if diff[i] >= Threshold {
          detect := true;
          highV := TruncU8(p);
          highI := i;
        }
      } else {
        if p > highV as real {
          highV := TruncU8(p);
          highI := i;
        }
      }
    }

    /** The end of a frame: emit the direction of the kept cell, or count
     *  one more calibration frame and average the baseline at the fiftieth. */
    method FinishFrame()
      requires Valid()
      modifies this, ambient
      ensures Valid()
      ensures Model() == EndOfFrame(old(Model()))
    {
      if |stopHunt| == 0 {
        if calib {
          if detect {
            if highI < 16 {
              direction := direction + [Right];
            } else if highI >= 48 {
              direction := direction + [Left];
            } else {
              direction := direction + [Middle];
            }
            highV := 0;
            highI := 0;
          }
        } else {
          count := count + 1;
          if count >= CalibrationFrames {
            AverageBaseline();
            calib := true;
          }
        }
      }
    }

    /** Divide every baseline cell by the calibration count. */
    method AverageBaseline()
      requires ambient.Length == PixelCount && count > 0
      modifies ambient
      ensures ambient[..] == Averaged(old(ambient[..]), count)
    {
      var j := 0;
      while j < PixelCount
        invariant 0 <= j <= PixelCount
        invariant forall k :: 0 <= k < j ==> ambient[k] == old(ambient[k]) / count as real
        invariant forall k :: j <= k < PixelCount ==> ambient[k] == old(ambient[k])
      {
        ambient[j] := ambient[j] / count as real;
        j := j + 1;
      }
    }
  }
}
