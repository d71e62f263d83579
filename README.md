# Drowsiness detector: the per-face decision rule

This project models the decision core of a webcam drowsiness monitor. For every
detected face the detector reads one eye aspect ratio (`ear`). A ratio below
`EAR_THRESH = 0.28` is a low face: the counter of consecutive low faces goes up
by one, and once the counter exceeds `EAR_FRAMES = 40` every further low face
sets the status label to "Drowsy", raises the alert and logs a "Drowsy" row. Any
other face resets the counter, sets the label to "Awake" and clears the alert
flag. The alert keeps a flag `sound` so that a second playback is not started
while one is flagged. The event logger appends one row per call to an
append-only table.

The model follows the source's objects:

- `Alerting.Alert` holds `sound` and `playbacks`, a count of the playbacks started
  (each stands for one background thread playing the alarm).
- `EventLog.Manager` holds `rows`, the statuses appended to the `events` table.
- `Detection.Detector` holds `count` and `status` and owns one `Alert` and one
  `Manager`. `Step` is the rule for one face. `Detect` loops `Step` over the faces
  of one frame. `Monitor` loops `Detect` over a sequence of frames.

`Drowsiness.Next` and `Drowsiness.NextAll` give the same rule as functions on a
`State` value (counter, alert, label, log). Each `Detector` method is proved to
move `Detector.Abs()` exactly as these functions say. The lemmas of module
`Drowsiness` state what the rule does over single steps and over sequences of
faces. The class invariant `Inv` holds in every reachable state: the flag is set,
and the label is "Drowsy", exactly when the counter exceeds 40.

Two behaviours of the code differ from a "one event per episode" reading, and
the model follows the code:

- A "Drowsy" row is logged on every low face with a counter over 40, not once
  per Awake→Drowsy transition. For example, 42 low faces log two rows
  (`Scenario42Low`).
- A frame with several faces advances the counter once per face. A frame with
  no face leaves the counter frozen rather than reset.

## Model

| member | source | states |
|---|---|---|
| `Alerting.Triggered` | drowsiness_detection.py:55-58 | `alert()` leaves the flag on, and starts one playback exactly when the flag was off |
| `Alerting.Cleared` | drowsiness_detection.py:60-61 | `reset()` turns the flag off and starts no playback |
| `Alerting.TriggerIdempotent` | drowsiness_detection.py:55-58 | a second `alert()` before any `reset()` starts nothing and changes nothing |
| `Alerting.ResetRearms` | drowsiness_detection.py:55-61 | after `reset()` the next `alert()` starts a fresh playback |
| `Alerting.Alert.constructor` | drowsiness_detection.py:46-47 | a new alert has the flag off and has started no playback |
| `Alerting.Alert.Trigger` | drowsiness_detection.py:55-58 | `alert()`: the object's new state is `Triggered` of its old state |
| `Alerting.Alert.Reset` | drowsiness_detection.py:60-61 | the object's new state is `Cleared` of its old state |
| `EventLog.Manager.constructor` | drowsiness_detection.py:30-37 | opening the logger keeps the rows the table already holds |
| `EventLog.Manager.SaveEvent` | drowsiness_detection.py:39-42 | exactly one row with the given status is appended, and earlier rows are unchanged |
| `Drowsiness.EarThresh` | drowsiness_detection.py:64 | the threshold 0.28 below which a face's eye aspect ratio counts as low; used by `Next` |
| `Drowsiness.EarFrames` | drowsiness_detection.py:65 | the run length 40 that the low-face counter must exceed before the drowsy actions; used by `Next` |
| `Drowsiness.Initial` | drowsiness_detection.py:75-78 | the state of a new detector (zero counter, flag off, no playback, label "Monitoring" as set at line 142, the existing rows); no contract of its own: `InvInitial` and `Detection.Detector.constructor` state it |
| `Drowsiness.Next` | drowsiness_detection.py:105-114 | the rule for one face as a function on the whole state; no contract of its own: the one-step lemmas below specify it, and `Detection.Detector.Step` is proved to follow it |
| `Drowsiness.NextAll` | drowsiness_detection.py:95-114 | the `for rect in rects` loop: `Next` applied to each face in order; no contract of its own: the sequence lemmas below specify it, and `Detection.Detector.Detect` is proved to follow it |
| `Drowsiness.Flatten` | drowsiness_detection.py:87-95 | the faces of the frames read by the `while self.running` loop, in order; no contract of its own: `Detection.Detector.Monitor` is stated with it |
| `Drowsiness.InvInitial` | drowsiness_detection.py:75-78 | the initial state (zero counter, flag off) satisfies the invariant |
| `Drowsiness.LowStep` | drowsiness_detection.py:105-106 | a low face raises the counter by exactly one and never clears the flag |
| `Drowsiness.HighStep` | drowsiness_detection.py:111-114 | a high face zeroes the counter, writes "Awake", clears the flag, logs nothing and starts no playback |
| `Drowsiness.DrowsyActionsIff` | drowsiness_detection.py:105-110 | on a low face the drowsy actions happen iff the incremented counter exceeds 40; otherwise only the counter changes |
| `Drowsiness.RowIffDrowsyStep` | drowsiness_detection.py:105-114 | a face appends a row iff it is low with an incremented counter over 40; otherwise the log is unchanged |
| `Drowsiness.PlaybackOnlyOnEntry` | drowsiness_detection.py:105-114 | in a reachable state a playback starts exactly on the 41st consecutive low face, and never more than one per face |
| `Drowsiness.InvPreserved` | drowsiness_detection.py:105-114 | one face preserves "flag set iff label Drowsy iff counter over 40" |
| `Drowsiness.InvPreservedAll` | drowsiness_detection.py:105-114 | any sequence of faces preserves the invariant |
| `Drowsiness.NextAllAppend` | drowsiness_detection.py:87-114 | running two batches of faces in turn is the same as running them joined |
| `Drowsiness.LogAppendOnly` | drowsiness_detection.py:39-42 | over any faces the earlier rows stay, at most one row is added per face, and every added row is "Drowsy" |
| `Drowsiness.CountIsTrailingLows` | drowsiness_detection.py:105-112 | the counter equals the length of the trailing run of low faces, plus the starting counter when all faces were low |
| `Drowsiness.LowRun` | drowsiness_detection.py:105-110 | a run of n low faces raises the counter by n, logs one "Drowsy" row per face past 40, and starts at most one playback |
| `Drowsiness.AtMostOnePlayback` | drowsiness_detection.py:105-110 | a run of low faces of any length starts at most one playback, and none if the flag was already set |
| `Drowsiness.FirstDrowsyOnStep41` | drowsiness_detection.py:105-110 | from a zero counter n low faces log exactly max(0, n - 40) rows; the first 40 change only the counter; the 41st is the first drowsy face |
| `Drowsiness.QuietRunNeverLogs` | drowsiness_detection.py:105-114 | faces that never form a run of more than 40 low values never log, never start a playback and never write "Drowsy" |
| `Drowsiness.StillMonitoringAfter40Lows` | drowsiness_detection.py:105-107 | a new detector that has seen 40 low faces still shows "Monitoring" and has logged nothing, since such faces write no label |
| `Drowsiness.EpisodeThenRecovery` | drowsiness_detection.py:105-114 | n > 40 low faces then a high one start exactly one playback, log n - 40 rows, and end awake with the flag off |
| `Drowsiness.Scenario41LowThenHigh` | drowsiness_detection.py:105-114 | from a new detector, 41 low faces make it drowsy with one row and one playback; the 42nd, high, face makes it awake |
| `Drowsiness.Scenario42Low` | drowsiness_detection.py:107-110 | from a new detector, 42 low faces start one playback but log two rows |
| `Detection.Detector.constructor` | drowsiness_detection.py:75-78 | a new detector has a zero counter, the flag off, no playback, the label "Monitoring" and the existing rows |
| `Detection.Detector.Step` | drowsiness_detection.py:105-114 | the detector's state after one face is `Next` of its state before, and the invariant is kept |
| `Detection.Detector.Detect` | drowsiness_detection.py:95-114 | a frame runs `Step` once per face in order; a frame with no face changes nothing |
| `Detection.Detector.Monitor` | drowsiness_detection.py:87-118 | the state after a sequence of frames is that of running all their faces in order |

## Left out

- The eye aspect ratio (`euclidean`, `eye_aspect_ratio`) and the averaging of the two eyes (drowsiness_detection.py:16-26, 103): floating-point and `sqrt` numerics. `ear` is an input real. NaN, and the division by zero in a degenerate eye shape, are not modelled.
- Camera capture, grayscale conversion, dlib face and landmark detection, `cv2.imshow`, the 'q' key and the camera error message: I/O and third-party perception. `Monitor` takes the frames that were read as a finite sequence of per-face ratios.
- The SQLite connection, the schema creation and commit, and the `datetime.now()` timestamp: storage and clock I/O. A row is its status label. `EventLog.Manager.SaveEvent` cannot fail; in the source an exception from the insert or the commit (drowsiness_detection.py:41-42) is not caught and ends the detection thread after the label and the alert have already changed.
- `Alert.play`, `playsound` and the background `Thread`: audio and concurrency. Starting a playback is an increment of `playbacks`.
- The `running` flag and `stop()`: cross-thread cancellation. The label colours and the rest of the Tkinter `Gui` are presentation. Only the label text is kept, and its first value "Monitoring" comes from `Gui.start` (drowsiness_detection.py:142).
- One log row per transition, and rejection of invalid or degenerate measurements: the code does neither, so the model does neither.
