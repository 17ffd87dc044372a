# scritch: training controller and live monitor, modelled in Dafny

The repository trains a small classifier that tells scratching from quiet
movement in a window of sensor samples (`train.py`), then runs the trained
network on samples streamed from a serial port (`test.py`). Almost all of
both scripts is library calls. This model covers the two small state
machines in them, written as pure step functions over immutable states:

- **Training controller** (`train.py`). The best validation loss starts at
  +inf. An epoch whose validation loss is `<=` the best so far writes the
  checkpoint, records the epoch's accuracy and resets the non-improvement
  counter. Any other epoch adds one to the counter. The loop breaks once the
  counter reaches 100 and runs at most 100000 epochs. A progress line is
  printed every 50 epochs. The epoch averages are computed from
  `drop_last` batches and divide by zero when a split yields no batch.
- **Live monitor** (`test.py`). Each serial line is split on `,` and its
  third field is parsed. The parsed value overwrites the last slot of the
  window, and then the window is rolled left by one. Every `K`-th accepted
  sample, the classifier runs on the window and prints a verdict, and the
  counter returns to 0.

Modules:

| file | module | what it holds |
|---|---|---|
| `wrappers.dfy` | `Wrappers` | `Option`, `Result` |
| `losses.dfy` | `Losses` | a loss as `Finite(x)`, `PosInf` or `NaN`; Python's `<=`, `+`, `*`, `/` on it |
| `epoch.dfy` | `Epoch` | batches, the `drop_last` loader shape, the epoch averages (`Summarise`) |
| `training.dfy` | `Training` | `Step`, the loop (`Continue`, `TrainFrom`), and a reference description built from "record" epochs |
| `fields.dfy` | `Fields` | Python's `str.split(',')`, its inverse `join`, the third field |
| `window.dfy` | `Window` | `np.roll(x, -1)`, the overwrite-then-roll update, and its closed form |
| `inference.dfy` | `Inference` | one pass of the polling loop (`Poll`), a run of passes (`Run`), and a reference built from accepted samples |

The main operations are checked against reference definitions that do not
use them:

- The controller is matched against *records*. An epoch is a record when its
  loss is a number no worse than every earlier numeric loss.
- The loop's exit is matched against *stalls*: `EarlyStop` consecutive
  non-record epochs.
- The window is matched against a FIFO *queue* of the samples shifted in.
- The monitor's verdicts are matched against "one verdict after every
  `K`-th accepted sample".
- `Split` is matched against `Join`, in both directions.
- A line's sample is pinned to `parse` applied to field 2 of `Split`.

The network, the float parser and the serial port are parameters or inputs:

- The sample type is a type parameter `T` of `Window` and `Inference`. In
  the script a sample is a float32 value, and NaN and the infinities are
  valid samples.
- `parse: string -> Option<T>` stands for `float()` followed by the
  float32 store into the window.
- `classify: seq<T> -> nat` stands for the network's arg-max.
- A `Reading` is either no data waiting, a decoded line, or bytes whose
  `.decode()` raises.
- Each epoch's batch losses and hit counts are inputs.

The window length `N` and the interval `K` are parameters, because the
constants that define them come from a module that is not part of this
model.

Three behaviours of the code that the model keeps:

- **Newest sample position.** Because the write happens before the roll,
  the newest sample ends at index `N-2`, not in the last slot. The last
  slot holds the sample that was at the front, and the next insert
  overwrites it (`Window.Shift`, `Window.ShiftAllIsQueueTail`).
- **Exception handling.** The bare `except` covers only test.py:27-29. So
  `.decode()` at line 20 and the classifier call at line 39 can end the
  script.
- **Skipped insert.** With `N = 0`, the write at line 28 raises
  `IndexError`. The bare `except` then skips the sample, exactly like a
  parse failure.

## Model

| member | source | states |
|---|---|---|
| `Losses.LeOrdersNumbers` | train.py:44-145 | Python's float `<=`: reflexive, transitive and total on numbers, antisymmetric, false whenever NaN is involved, and a loss is `<=` +inf (the start value at line 44) exactly when it is not NaN |
| `Losses.Add` | train.py:110 | the float `+=` of two losses is NaN exactly when one of them is NaN, and +inf exactly when it is not NaN and one of them is +inf |
| `Losses.AddLaws` | train.py:110 | the float `+=` on losses is commutative, associative and has 0.0 as identity, so batch order does not change the total |
| `Losses.Scale` | train.py:110 | `loss * size` is NaN exactly when the loss is NaN or is +inf with an empty batch, and +inf exactly when the loss is +inf and the batch is not empty |
| `Losses.Div` | train.py:124 | dividing by a positive sample count keeps NaN and +inf and nothing else becomes either |
| `Losses.ScaleDivRoundTrip` | train.py:110-124 | for a positive count, `/ n` undoes `* n` and `* n` undoes `/ n` |
| `Losses.DivKeepsOrder` | train.py:124-145 | dividing two totals by the same positive count keeps their `<=` order |
| `Epoch.WeightedLoss` | train.py:110 | the accumulated `loss * size` is NaN exactly when some batch contributes NaN (a NaN loss, or +inf times an empty batch); it is +inf exactly when no batch is NaN and some batch loss is +inf |
| `Epoch.Percent` | train.py:130 | the accuracy `100 * hits / size` is non-negative, at most 100 when hits do not exceed the size, and times the size gives back `100 * hits` |
| `Epoch.Summarise` | train.py:122-130 | the epoch raises ZeroDivision exactly when the training or the validation split yielded no sample; otherwise the accuracy is in [0, 100] for well-formed batches, and the validation loss is NaN exactly when some validation batch contributes NaN |
| `Epoch.HitsBounded` | train.py:115-118 | summed over an epoch, matches never exceed samples when each batch matches at most its own size |
| `Epoch.LoaderSamples` | train.py:34-35 | with `drop_last`, a split of `n` samples contributes `n - n % 200` samples, which is 0 exactly when `n < 200` |
| `Epoch.SmallSplitFails` | train.py:118-124 | a validation split under 200 samples makes the validation average divide by zero |
| `Training.Step` | train.py:135-165 | one epoch: the checkpoint is written exactly when the new loss is `<=` the best (ties save, NaN never does); the loop halts exactly when the counter reaches 100; it logs exactly when `(epoch+1) % 50 == 0`; the count of completed epochs rises by 1; it saves exactly when the counter goes to 0; saving takes that epoch's loss and accuracy; otherwise best and accuracy are kept and the counter rises by 1; a numeric best never becomes NaN or increases; a halt means the counter reached 100 |
| `Training.AfterMatchesRecords` | train.py:145-161 | after `k` epochs the best loss is the loss of the last record (+inf if there is none) and no worse than any numeric loss seen; the accuracy kept is that record's (0.0 if none); the counter equals the number of epochs since the last record |
| `Training.RecordEpoch` | train.py:145-159 | a record epoch makes itself the best, with its accuracy and a zero counter |
| `Training.QuietEpoch` | train.py:160-161 | a non-record epoch keeps best and accuracy and adds one to the counter |
| `Training.SavesExactlyOnRecords` | train.py:145-161 | epoch `k` writes the checkpoint exactly when it is a record |
| `Training.FirstNumericLossSaves` | train.py:145-148 | because the best starts at +inf (line 44), the first epoch whose loss is not NaN always writes the checkpoint |
| `Training.BestNeverIncreases` | train.py:145-148 | for `j <= k`, the best loss after `k` epochs is `<=` the best after `j` epochs |
| `Training.StallReachesLimit` | train.py:163-165 | the counter reaches 100 after `k` epochs exactly when the last 100 epochs were all non-records |
| `Training.RecordsListsRecords` | train.py:145-147 | the saved epochs are listed in increasing order, and an epoch is listed exactly when it is a record |
| `Training.LogsGrow` | train.py:135-142 | epoch index `k` adds the progress line `k+1` exactly when `k+1` is a multiple of 50 |
| `Training.Continue` | train.py:53-165 | the loop never runs more than 100000 epochs and never goes backwards |
| `Training.AdvanceOnTrack` | train.py:135-165 | one more epoch keeps the state, the saved epochs and the printed epochs equal to the reference; the loop breaks exactly when the new epoch ends a stall of 100 non-records |
| `Training.ContinueHalts` | train.py:53-165 | started from any epoch that agrees with the reference and has not stalled, the loop agrees with the reference when it stops; it stops before 100000 epochs only at the first stall |
| `Training.Train` | train.py:44-165 | the whole script, from `valid_loss_min` at +inf, the accuracy at 0.0 and the counter at 0: the run stops after at most 100000 epochs. If it stops earlier, the last 100 epochs were non-records. No earlier epoch count ended such a stall. The final state, the saved epochs and the printed epochs (50, 100, ...) are the reference ones for that many epochs |
| `Training.ConstantLossNeverStops` | train.py:145-161 | with a constant non-NaN validation loss every epoch ties and saves, so the counter stays 0 and early stopping never fires |
| `Training.NaNLossStopsAtLimit` | train.py:145-165 | with a validation loss that is always NaN no epoch saves, the counter equals the number of epochs, and the loop stops after epoch 100 |
| `Training.TrainFrom` | train.py:53-130 | the script with averages computed from batches either raises or stops within 100000 epochs |
| `Training.TrainFromAgrees` | train.py:53-165 | when every epoch's averages are defined, the script is the controller loop run on those averages |
| `Training.FixedSplitFailsOnlyAtStart` | train.py:32-35 | with the split made once and `drop_last` full batches in every epoch, the averages at lines 122-124 raise ZeroDivision exactly when a split has fewer than 200 samples, and then already in the first epoch |
| `Training.EveryEpochDefined` | train.py:53-165 | when no epoch's averages divide by zero, the script runs to its end without raising |
| `Training.SmallValidationSplitCrashes` | train.py:118-124 | with fewer than 200 validation samples the first epoch raises ZeroDivision, before any checkpoint |
| `Training.FinalAccuracyInRange` | train.py:130-167 | the accuracy printed at the end lies in [0, 100] when every batch's hits are bounded by its size |
| `Fields.Split` | test.py:27 | `split(',')` gives one more field than there are commas, and no field contains a comma |
| `Fields.JoinSplit` | test.py:27 | joining the fields of a split with the separator restores the line |
| `Fields.SplitJoin` | test.py:27 | splitting the join of comma-free fields gives the fields back |
| `Fields.ThirdField` | test.py:27 | `[2]` exists exactly when the line has at least two commas (otherwise `IndexError`); it is field 2 of the split and holds no comma |
| `Window.RotateLeft` | test.py:29 | `np.roll(x, -1)` keeps the length and puts old slot `(i+1) mod N` at slot `i` |
| `Window.Shift` | test.py:28-29 | overwrite-then-roll keeps the length; for `N >= 2` it yields `old[1..N-1] + [v] + [old[0]]`, so `v` lands at index `N-2`; for `N = 1` it yields `[v]` |
| `Window.ShiftAll` | test.py:28-29 | any number of inserts keeps the window length |
| `Window.FirstShiftIsQueueTail` | test.py:28-29 | the first insert leaves the queue of one new sample, rotated left by one |
| `Window.ShiftAlongQueue` | test.py:28-29 | one insert moves the window one step along the queue of samples |
| `Window.ShiftAllIsQueueTail` | test.py:28-29 | after `m >= 1` inserts the window is the last `N-1` entries of the queue (initial first `N-1` slots, then the inserted samples), followed by the entry just before them |
| `Window.RecentSamplesInOrder` | test.py:28-29 | once `N-1` samples have arrived, slots `0..N-2` hold the `N-1` most recent samples in arrival order |
| `Window.OriginalSamplesEvicted` | test.py:28-29 | once `N` samples have arrived, the window is the `N-1` most recent samples followed by the one before them; nothing of the initial window is left |
| `Inference.VerdictOf` | test.py:39-40 | class index 0 is the quiet verdict and every other index is scratching |
| `Inference.Message` | test.py:40 | the quiet verdict prints "Everything looks fine" and scratching prints "Are you scratching?" |
| `Inference.Start` | test.py:8-10 | the window starts as `N` copies of the zero sample and the counter at 0 |
| `Inference.Sample` | test.py:27 | a line yields a sample exactly when it has at least two commas and `parse` accepts field 2 of its split; the sample is then `parse` of that field |
| `Inference.Insert` | test.py:28-29 | the write succeeds exactly when the window is non-empty, and keeps its length |
| `Inference.Accept` | test.py:28-42 | a parsed sample keeps the window length; with `K >= 1` a counter below `K` stays below `K`; a verdict resets the counter and is the classifier's answer on the new window; an empty window changes nothing |
| `Inference.Poll` | test.py:19-42 | a pass crashes exactly on a decode error. Otherwise it keeps the window length and keeps the counter below `K` (for `K >= 1`). A verdict comes with a zero counter and is the classifier's answer on the new window. No data waiting, a line without a parsable third field, or an empty window change nothing |
| `Inference.Run` | test.py:17-42 | a run of passes keeps the window length and, with `K >= 1`, the counter in `[0, K-1]` |
| `Inference.Expected` | test.py:32-42 | the reference verdict list holds one verdict per `K` accepted samples |
| `Inference.AcceptMatchesAccepted` | test.py:28-42 | one accepted sample keeps window, counter and verdicts equal to the reference |
| `Inference.PollMatchesAccepted` | test.py:19-42 | one pass without a decode error keeps window, counter and verdicts equal to the reference |
| `Inference.RunMatchesAccepted` | test.py:17-42 | from a zero counter, without decode errors and with `N >= 1`: the window is every accepted sample shifted in, the counter is their number mod `K`, and the verdicts are one per `K` accepted samples, each the classifier's answer on the window right after that sample |
| `Inference.OneVerdictPerInterval` | test.py:32-42 | exactly `K` accepted samples produce exactly one verdict, on the final window, and leave the counter at 0 |
| `Inference.ZeroIntervalNeverFires` | test.py:32-33 | with `K = 0` no verdict is ever printed and the counter counts every accepted sample |
| `Inference.EmptyWindowNeverChanges` | test.py:26-31 | with `N = 0` every write raises and is skipped, so the state never changes and nothing is printed |
| `Inference.CrashIsFinal` | test.py:17-20 | once a decode error has ended the loop, later readings change nothing |
| `Inference.DecodeErrorCrashes` | test.py:20 | a decode error ends the loop |

## Left out

- The network (`Scritch`), the dataset reader (`ScritchData`) and the serial module (`sercomm`) are not part of this model. The classifier is the parameter `classify`. The serial port is a sequence of `Reading`s.
- Training numerics are inputs, not computed: the optimiser, gradients, the loss criterion, and each batch's loss and hit count. `lrs` only feeds the progress line (train.py:138) and `history` (train.py:47, 128) is written and never read; neither is modelled.
- `random_split`, shuffling and seeding are library randomness; the split sizes are parameters.
- Float rounding of losses is not modelled: finite losses are exact reals. Samples are of an abstract type, so their float32 narrowing (a large value becoming inf) belongs to `parse`.
- The `Loss` type has no -inf: with non-negative targets, cross-entropy is never negative. The targets come from `ScritchData`, which is not part of this model.
- `Losses.Add`: a finite sum that would overflow to +inf stays finite, because float rounding is not modelled.
- `Epoch.Summarise` computes the averages and the accuracy but not the printed text. The contents of the checkpoint file are not modelled either; only the decision to write it is.
- Byte decoding is not modelled; a line that fails to decode is the reading `Undecodable`. Exceptions from the classifier call and the `KeyboardInterrupt` that closes the port are not modelled.
- `Inference.RunMatchesAccepted` is stated from a zero counter, which is how the script starts (`index = 0`), not from an arbitrary counter.
