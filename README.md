# Scroomba task core in Dafny

This project models the core tasks of Scroomba, a small robot that hunts a warm body with an 8×8 thermal camera and backs off when its bumpers hit something. It covers four tasks:

- **Person detector** (`task_thermaldecoder`, `thermal_decoder.dfy`). Each cycle it handles a pending reset request. When a frame is available it then drains the 64 readings. Each cell is either ignored (hunting suppressed by `stop_hunt`), accumulated into the ambient baseline (calibrating), compared against the baseline (looking for a person) or compared against the truncated running `high_v` (tracking). At the end of the frame it emits a direction code, or it counts one more calibration frame and averages the baseline at the fiftieth.
- **Motor task** (`task_motor`, `motor.dfy`). It consumes one direction code and one duty value. For a code 1..4 it drives two in-pins LOW per the code table, keeps the other two as the PWM pins of motors A and B, and writes the duty to both. Any other code drives no pin LOW and writes the duty to the previously selected PWM pins (pin 0 before any valid code).
- **Front and back bumper monitors** (`task_limit_front`, `task_limit_back`, `limit_switch_front.dfy`, `limit_switch_back.dfy`). Each raises its tagged flag (2 in front, 0 at the back) only while its queue is empty and the switch reads high.

Each task is a class whose fields are the task's locals and the queues it touches. Its `Step` method performs one iteration of the task's forever loop and is proved to compute a pure function on a value of the state (`ThermalDecoder.Next`, `Motor.Next`, `Poll`). The properties are lemmas about those functions.

Queues (`Queue<T>` of the task library) are FIFO sequences. `any()` means non-empty, `get` removes the head and `put` appends. Clients fill a queue by assigning the class field.

Temperatures are `real`. The float-to-`uint8_t` assignment of `high_v` is `ThermalDecoder.TruncU8`: truncate toward zero, then reduce modulo 256. Later comparisons use that truncated value. A frame is an `Option<seq<real>>`: `None` means the thermal queue is empty and only the reset branch runs.

Facts of the code that the model keeps:
- `Queue<T>` is first-in first-out: every put is kept, in order.
- A reset clears neither the direction queue nor the baseline; the first calibration frame after it overwrites the baseline (`src/thermal_decoder.cpp:54-68`, `84-86`).
- A suppressed frame removes at most one pending direction per cell, so at most 64 per frame.
- `high_v`/`high_i` are cleared after every emission (`src/thermal_decoder.cpp:139-140`), so tracking starts afresh on every frame. On the frame that first detects a person, the cells before the first one at least 3 above its baseline (the trigger) are only compared against the baseline, never tracked. From the trigger on, each raw reading is compared against the `uint8_t`-truncated `high_v`, and the kept index is the last cell whose reading exceeds it. That cell may be cooler than the trigger (a trigger at 30.7 keeps 30, and a later 30.2 replaces it).

## Model

| member | source | states |
|---|---|---|
| ThermalDecoder.TruncU8 | src/thermal_decoder.cpp:99-107 | the stored `high_v` is in 0..255, and for a reading in [0,256) it is the reading's integer part |
| ThermalDecoder.ColumnCode | src/thermal_decoder.cpp:124-138 | the emitted code is RIGHT (4) exactly for indices below 16, LEFT (3) exactly for 48 and above, MIDDLE (1) exactly for 16..47, and nothing else |
| ThermalDecoder.Reset | src/thermal_decoder.cpp:54-68 | with a reset pending: calib and detect false, count/high_v/high_i zero, one reset flag and one stop_hunt flag (if any) consumed, baseline and direction queue untouched; otherwise nothing changes |
| ThermalDecoder.Cell | src/thermal_decoder.cpp:74-110 | one cell keeps the state well formed, never changes calib/count or the flag queues, never clears detect, never touches the baseline once calibrated, and only touches the direction queue when suppressed |
| ThermalDecoder.ScanFrom | src/thermal_decoder.cpp:72-111 | the same guarantees hold over the whole per-cell loop |
| ThermalDecoder.EndOfFrame | src/thermal_decoder.cpp:113-163 | the end of a frame keeps the state well formed and never changes detect or the flag queues |
| ThermalDecoder.Next | src/thermal_decoder.cpp:52-165 | one loop iteration keeps the state well formed (count reaches 50 exactly when calibrated, detect only when calibrated, high_i < 64) and consumes at most one reset flag |
| ThermalDecoder.RunFrames | src/thermal_decoder.cpp:52-165 | any number of iterations keeps the state well formed |
| ThermalDecoder.DropDrop | src/thermal_decoder.cpp:77-80 | draining a queue a times and then b times is draining it a + b times |
| ThermalDecoder.DropIsSuffix | src/thermal_decoder.cpp:77-80 | draining only removes items from the front of the direction queue |
| ThermalDecoder.ScanSuppressed | src/thermal_decoder.cpp:75-81 | while stop_hunt is occupied the per-cell loop changes nothing but the direction queue, draining one item per remaining cell |
| ThermalDecoder.SuppressionNoSideEffects | src/thermal_decoder.cpp:75-163 | a suppressed frame leaves calib, detect, count, baseline, diff, high_v and high_i as after the reset branch, puts nothing and drains up to 64 directions (so 64 or fewer become empty) |
| ThermalDecoder.SuppressedCell | src/thermal_decoder.cpp:75-81 | a suppressed cell drains one pending direction and changes nothing else |
| ThermalDecoder.SuppressedStep | src/thermal_decoder.cpp:75-163 | with no reset pending, one more suppressed frame after k of them drains 64 more directions and changes nothing else |
| ThermalDecoder.SuppressedRunStep | src/thermal_decoder.cpp:75-163 | if the frames before the last one drained 64 per frame and changed nothing else, so do all the frames |
| ThermalDecoder.SuppressedRun | src/thermal_decoder.cpp:75-163 | any number of suppressed frames with no reset pending leave the detector unchanged and only drain 64 directions per frame |
| ThermalDecoder.CalibrationScan | src/thermal_decoder.cpp:82-92 | while calibrating the per-cell loop overwrites each baseline cell on the first frame and adds the reading to it otherwise, touching nothing else |
| ThermalDecoder.CalibrationFrame | src/thermal_decoder.cpp:82-158 | an unsuppressed calibration frame advances the counter, finishes calibration exactly at 50, accumulates the baseline (divided by 50 on the last frame), detects nothing and emits nothing |
| ThermalDecoder.EndOfCalibrationFrame | src/thermal_decoder.cpp:147-158 | the end of a calibration frame counts it and, at 50, divides every baseline cell by the count and sets calib |
| ThermalDecoder.CalibrationCount | src/thermal_decoder.cpp:82-158 | an unsuppressed calibration frame advances the counter, sets calib exactly at 50, detects and emits nothing |
| ThermalDecoder.CalibrationPrefixStep | src/thermal_decoder.cpp:82-158 | if the task is still calibrating after all frames but the last, with count at their number, it still is after the last one while fewer than 50 |
| ThermalDecoder.CalibrationPrefix | src/thermal_decoder.cpp:82-158 | fewer than 50 calibration frames from a fresh start leave the task calibrating with count equal to the number of frames, nothing detected and the direction queue unchanged |
| ThermalDecoder.AccumulatedIsCellSum | src/thermal_decoder.cpp:84-91 | accumulating frame n onto the sum of frames 1..n-1 gives the sum of frames 1..n |
| ThermalDecoder.CalibrationPrefixSums | src/thermal_decoder.cpp:84-91 | after fewer than 50 calibration frames each baseline cell is the sum of that cell over the frames |
| ThermalDecoder.CalibrationAverages | src/thermal_decoder.cpp:84-157 | after the 50th unsuppressed calibration frame calib is true and each baseline cell is that cell's sum over the 50 frames divided by 50; nothing was detected or emitted |
| ThermalDecoder.CellSumConstant | src/thermal_decoder.cpp:84-91 | summing a cell over n identical frames gives n times its value |
| ThermalDecoder.AverageOfConstant | src/thermal_decoder.cpp:152-155 | dividing the sum of 50 identical frames by 50 gives the frame back |
| ThermalDecoder.ConstantFramesGiveBaseline | src/thermal_decoder.cpp:84-157 | 50 identical frames give a baseline equal to that frame |
| ThermalDecoder.FirstCalibrationFrameOverwrites | src/thermal_decoder.cpp:84-87 | the first calibration frame after a (re)start replaces the old baseline with the frame |
| ThermalDecoder.CalibrationEmitsNothing | src/thermal_decoder.cpp:82-158 | a frame processed uncalibrated (including the one that completes calibration) never sets detect and never puts a direction |
| ThermalDecoder.DetectScan | src/thermal_decoder.cpp:93-101 | calibrated and not detecting, the per-cell loop sets detect iff some remaining cell is at least 3 above its baseline |
| ThermalDecoder.DetectionThreshold | src/thermal_decoder.cpp:93-141 | calibrated and not detecting, a frame sets detect iff some cell has reading minus baseline >= 3, and then exactly one direction is appended, namely `ColumnCode` of the `highI` the frame's scan leaves, which is at or after some cell at the threshold; otherwise the queue is unchanged |
| ThermalDecoder.ThresholdIsInclusive | src/thermal_decoder.cpp:96 | a cell exactly 3 above its baseline triggers detection |
| ThermalDecoder.BelowThresholdNeverDetects | src/thermal_decoder.cpp:96 | a frame whose cells are all less than 3 above the baseline detects nothing and emits nothing |
| ThermalDecoder.TrackingPicksMax | src/thermal_decoder.cpp:103-109 | in tracking mode the final high_v is at least the truncated reading of every scanned cell, never decreases, and is the truncated reading of cell high_i (or the value carried in); high_i < 64 |
| ThermalDecoder.TrackingIndex | src/thermal_decoder.cpp:103-109 | in tracking mode the kept index is the one carried in or a cell scanned in this pass |
| ThermalDecoder.TriggerScan | src/thermal_decoder.cpp:93-109 | on the frame that first detects a person, the kept index is at or after the first cell at least 3 above its baseline, and every cell before that one is below |
| ThermalDecoder.TriggerStartsTracking | src/thermal_decoder.cpp:96-109 | the trigger cell sets detect; from it on the kept reading is the truncated reading of cell high_i and at least that of the trigger and every later cell (readings in [0, 256)) |
| ThermalDecoder.FirstDetectionScan | src/thermal_decoder.cpp:93-109 | on the frame that first detects a person there is a first cell at the threshold, earlier cells are below it and not tracked, the kept index is that cell or later, and the kept truncated reading is that of cell high_i and at least that of the trigger and every later cell (readings in [0, 256)) |
| ThermalDecoder.FirstDetectionFrame | src/thermal_decoder.cpp:93-141 | the first detecting frame appends ColumnCode(high_i) for a cell high_i at or after the trigger whose truncated reading is at least that of the trigger and of every later cell (readings in [0, 256)) |
| ThermalDecoder.CoolerLaterCellTakesOver | src/thermal_decoder.cpp:96-107 | with baseline 27, a trigger at 30.7 keeps high_v 30, and a later cell reading 30.2 (cooler than the trigger) becomes high_i |
| ThermalDecoder.EmissionAfterFrame | src/thermal_decoder.cpp:113-141 | a calibrated, unsuppressed frame with detect set appends ColumnCode(high_i), clears high_v and high_i and keeps detect; without detect nothing is put |
| ThermalDecoder.ResetTwiceSameAsOnce | src/thermal_decoder.cpp:54-68 | a second reset with no frame in between leaves the detector in the same state as the first |
| ThermalDecoder.DecoderTask.constructor | src/thermal_decoder.cpp:34-50 | the task starts uncalibrated, undetected, with count/high_v/high_i zero |
| ThermalDecoder.DecoderTask.Step | src/thermal_decoder.cpp:52-165 | one loop iteration on the in-place locals and arrays computes `Next` and keeps the invariant |
| ThermalDecoder.DecoderTask.HandleReset | src/thermal_decoder.cpp:54-68 | the reset branch in place computes `Reset` |
| ThermalDecoder.DecoderTask.ProcessCell | src/thermal_decoder.cpp:74-110 | the per-cell body in place (ambient/diff arrays updated at index i) computes `Cell` |
| ThermalDecoder.DecoderTask.FinishFrame | src/thermal_decoder.cpp:113-163 | the end of frame in place computes `EndOfFrame` |
| ThermalDecoder.DecoderTask.AverageBaseline | src/thermal_decoder.cpp:152-155 | the averaging loop divides every baseline cell by count in place |
| Motor.RolesFor | src/motor.cpp:62-117 | the table has an entry exactly for codes 1..4 |
| Motor.RolesPartitionInPins | src/motor.cpp:62-117 | for every valid code the LOW pins and the PWM pins are disjoint and cover in1..in4; motor A's PWM pin is in1 or in2, motor B's is in3 or in4 |
| Motor.ForwardReverseMirror | src/motor.cpp:62-89 | Forward and Reverse swap the LOW/PWM role of every in-pin |
| Motor.CodesDriveMotors | src/motor.cpp:62-117 | relative to Forward, Reverse moves both motors' PWM pin to the other input (both reversed); Left moves only motor B's, Right only motor A's |
| Motor.Next | src/motor.cpp:56-124 | a command is consumed only when both queues are non-empty, then exactly one item of each is removed and both PWM writes carry the same duty `motordata[1]`; otherwise nothing changes |
| Motor.ValidCodeFollowsTable | src/motor.cpp:62-121 | a code 1..4 selects the PWM pins and LOW pins of its table entry |
| Motor.InvalidCodeKeepsSelection | src/motor.cpp:62-121 | a code outside 1..4 writes no LOW pin and writes the duty to the previously selected PWM pins |
| Motor.SelectionIsLastValidCode | src/motor.cpp:50-121 | after n commands from the start, the PWM selection is that of the last valid code (pin 0 if none) and exactly n commands were consumed |
| Motor.MotorTask.constructor | src/motor.cpp:50-52 | the PWM selection starts at pin 0 for both motors |
| Motor.MotorTask.Step | src/motor.cpp:56-124 | one loop iteration in place computes `Next` and returns its pin writes |
| LimitSwitchFront.Poll | src/limit_switch_front.cpp:30-37 | an occupied queue is left unchanged; an empty queue gets exactly the item 2 if the pin is high and stays empty if it is low |
| LimitSwitchFront.AtMostOneFlag | src/limit_switch_front.cpp:30-37 | with this task as the only producer, the queue never holds more than one item, and that item is 2 |
| LimitSwitchFront.FrontLimitTask.constructor | src/limit_switch_front.cpp:27-28 | the flag queue starts empty |
| LimitSwitchFront.FrontLimitTask.Step | src/limit_switch_front.cpp:30-38 | one loop iteration in place computes `Poll` |
| LimitSwitchBack.Poll | src/limit_switch_back.cpp:32-39 | an occupied queue is left unchanged; an empty queue gets exactly the item 0 if the pin is high and stays empty if it is low |
| LimitSwitchBack.AtMostOneFlag | src/limit_switch_back.cpp:32-39 | with this task as the only producer, the queue never holds more than one item, and that item is 0 |
| LimitSwitchBack.BackLimitTask.constructor | src/limit_switch_back.cpp:29-30 | the flag queue starts empty |
| LimitSwitchBack.BackLimitTask.Step | src/limit_switch_back.cpp:32-40 | one loop iteration in place computes `Poll` |

## Left out

- The controller state machine (`task_mastermind`): its source file is not part of this model. Its queues appear only as class fields that a client assigns.
- `src/main.cpp`: an older top-level program. Its tasks are empty delay loops or print-only, and its ToF and camera code is hardware I/O and task creation.
- `src/thermal_cam.cpp`: a camera driver wrapper that puts the 64 readings in index order. Here the frame is simply the input of the decoder step.
- Queue internals: capacities (640 for thermal data, 64 puts per frame), and the blocking of `put` on a full queue and of `get` on an empty one. The one blocking `get` that matters is the motor task's direction `get` while a power value is pending. It is modelled as "no change this cycle", which is equivalent because the motor task is those queues' only consumer. A partially delivered frame is not modelled: a frame arrives whole or not at all.
- Concurrency: preemption between tasks, and `stop_hunt` changing in the middle of a frame. The task re-checks `stop_hunt` per cell; the model holds it fixed for one step.
- All `vTaskDelay` periods, `Serial` output, `pinMode`, and the actual `digitalRead`/`digitalWrite`/`analogWrite` calls. Pin readings are inputs, and the writes are returned as a `Writes` record.
- Floating point: readings, baseline and differences are exact reals, so rounding of the float sums and of the division by 50 is not modelled.
- The `uint8_t` range of queue items (codes, duties) is not enforced. `count` never exceeds 50, which `WellFormed` proves, so its `uint8_t` wrap-around cannot occur.
- The detector's `ambient` and `diff` arrays are uninitialised in the task. Here they start at zero; the first calibration frame overwrites the baseline anyway.
- ThermalDecoder.TruncU8: converting a float outside (-1, 256) to `uint8_t` is undefined behaviour in C++. The model picks truncation followed by reduction modulo 256.
- ThermalDecoder.TrackingPicksMax: proved only for readings in [0, 256). Outside that range the truncated value breaks the ordering.
- ThermalDecoder.FirstDetectionScan: the tracking part is proved only for readings in [0, 256), for the same reason.
- ThermalDecoder.TriggerStartsTracking: proved only for readings in [0, 256), for the same reason.
- ThermalDecoder.FirstDetectionFrame: the tracking part is proved only for readings in [0, 256), for the same reason.
