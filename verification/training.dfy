/**
 * The epoch-loop controller of the training script: checkpoint on every
 * validation loss that is no worse than the best so far, count epochs
 * without improvement, stop after `EarlyStop` of them in a row, and never
 * run more than `MaxEpochs` epochs. A progress line is printed every
 * `LogStep` epochs.
 *
 * Each epoch's averages are inputs (`ins(e)` is epoch `e`'s summary); the
 * model, the optimiser and the file written by the checkpoint are not
 * modelled, only the decision to write it.
 */
module Training {
  import opened Wrappers
  import opened Losses
  import opened Epoch

  const MaxEpochs: nat := 100000
  const EarlyStop: nat := 100
  const LogStep: nat := 50

  /** Best validation loss, accuracy at that epoch, epochs since the last
      improvement, and the number of epochs completed. */
  datatype TrainState = TrainState(best: Loss, bestAcc: real, stall: nat, epoch: nat)

  /** The loss starts at +inf, the accuracy at 0.0, the counter at 0. */
  const Initial: TrainState := TrainState(PosInf, 0.0, 0, 0)

  /** What one epoch decides: the next state, and whether it prints a
      progress line, writes the checkpoint, and breaks out of the loop. */
  datatype Decision = Decision(next: TrainState, log: bool, save: bool, halt: bool)

  /** The controller's reaction to one epoch's summary `e`. */
  function Step(s: TrainState, e: Summary): (d: Decision)
    ensures d.next.epoch == s.epoch + 1
    ensures d.save <==> d.next.stall == 0
    ensures d.save ==> d.next.best == e.validLoss && d.next.bestAcc == e.validAcc
    ensures !d.save ==> d.next.best == s.best && d.next.bestAcc == s.bestAcc
    ensures !d.save ==> d.next.stall == s.stall + 1
    ensures !s.best.NaN? ==> !d.next.best.NaN? && Le(d.next.best, s.best)
    ensures d.save <==> Le(e.validLoss, s.best)
    ensures d.halt <==> d.next.stall >= EarlyStop
    ensures d.log <==> (s.epoch + 1) % LogStep == 0
  {
    var log := (s.epoch + 1) % LogStep == 0;
    if Le(e.validLoss, s.best) then
      var next := TrainState(e.validLoss, e.validAcc, 0, s.epoch + 1);
      Decision(next, log, true, false)
    else
      var next := TrainState(s.best, s.bestAcc, s.stall + 1, s.epoch + 1);
      Decision(next, log, false, next.stall >= EarlyStop)
  }

  /** The controller state after `k` epochs, ignoring the loop's exits. */
  function After(ins: nat -> Summary, k: nat): TrainState {
    if k == 0 then Initial else Step(After(ins, k - 1), ins(k - 1)).next
  }

  // ----- reference definitions, stated without the controller -----

  /** Epoch `i` is a record: its loss is a number no worse than every
      earlier numeric loss. */
  predicate IsRecord(ins: nat -> Summary, i: nat) {
    && !ins(i).validLoss.NaN?
    && forall j: nat :: j < i && !ins(j).validLoss.NaN? ==> Le(ins(i).validLoss, ins(j).validLoss)
  }

  /** One past the last record among the first `k` epochs; 0 if none. */
  function LastRecord(ins: nat -> Summary, k: nat): (l: nat)
    ensures l <= k
    ensures l > 0 ==> IsRecord(ins, l - 1)
    ensures forall i: nat :: l <= i < k ==> !IsRecord(ins, i)
  {
    if k == 0 then 0 else if IsRecord(ins, k - 1) then k else LastRecord(ins, k - 1)
  }

  /** No record in epochs `lo .. hi-1`. */
  predicate Stalled(ins: nat -> Summary, lo: nat, hi: nat) {
    forall i: nat :: lo <= i < hi ==> !IsRecord(ins, i)
  }

  /** The loop breaks after `n` epochs: the last `EarlyStop` were non-records. */
  predicate StopsAt(ins: nat -> Summary, n: nat) {
    n >= EarlyStop && Stalled(ins, n - EarlyStop, n)
  }

  /** The epochs, in order, whose checkpoint is written among the first `k`. */
  function Records(ins: nat -> Summary, k: nat): seq<nat> {
    if k == 0 then [] else Records(ins, k - 1) + (if IsRecord(ins, k - 1) then [k - 1] else [])
  }

  /** The epoch numbers (1-based) printed in the first `k` epochs. */
  function Logs(k: nat): seq<nat> {
    seq(k / LogStep, i => LogStep * (i + 1))
  }

  // ----- the controller agrees with the reference -----

  /** The reference description of the controller after `k` epochs: the
      best loss is the loss of the last record (+inf if there is none) and no
      worse than any numeric loss seen, the accuracy is that record's, and
      the counter is the number of epochs since it. */
  ghost predicate Explains(ins: nat -> Summary, k: nat, s: TrainState) {
    var l := LastRecord(ins, k);
    && s.epoch == k
    && s.stall == k - l
    && s.best == (if l == 0 then PosInf else ins(l - 1).validLoss)
    && s.bestAcc == (if l == 0 then 0.0 else ins(l - 1).validAcc)
    && !s.best.NaN?
    && forall j: nat :: j < k && !ins(j).validLoss.NaN? ==> Le(s.best, ins(j).validLoss)
  }

  /** The controller after `k` epochs is the one the records describe. */
  lemma {:induction false} AfterMatchesRecords(ins: nat -> Summary, k: nat)
    ensures Explains(ins, k, After(ins, k))
    decreases k, 0
  {
    if k > 0 {
      var p := k - 1;
      AfterMatchesRecords(ins, p);
      SavesExactlyOnRecords(ins, p);
      if IsRecord(ins, p) {
        RecordEpoch(ins, p);
      } else {
        QuietEpoch(ins, p);
      }
    }
  }

  /** A record epoch resets the description to itself. */
  lemma RecordEpoch(ins: nat -> Summary, p: nat)
    requires After(ins, p).epoch == p
    requires IsRecord(ins, p)
    requires Step(After(ins, p), ins(p)).save
    ensures Explains(ins, p + 1, After(ins, p + 1))
  {
  }

  /** A non-record epoch only advances the counter. */
  lemma QuietEpoch(ins: nat -> Summary, p: nat)
    requires Explains(ins, p, After(ins, p))
    requires !IsRecord(ins, p)
    requires !Step(After(ins, p), ins(p)).save
    ensures Explains(ins, p + 1, After(ins, p + 1))
  {
    var s := After(ins, p);
    var x := ins(p).validLoss;
    assert After(ins, p + 1) == TrainState(s.best, s.bestAcc, s.stall + 1, p + 1);
    assert LastRecord(ins, p + 1) == LastRecord(ins, p);
    if !x.NaN? {
      LeOrdersNumbers(x, s.best, x);
    }
  }

  /** Epoch `k` writes the checkpoint exactly when it is a record. */
  lemma {:induction false} SavesExactlyOnRecords(ins: nat -> Summary, k: nat)
    ensures Step(After(ins, k), ins(k)).save <==> IsRecord(ins, k)
    decreases k, 1
  {
    AfterMatchesRecords(ins, k);
    var s := After(ins, k);
    var x := ins(k).validLoss;
    var l := LastRecord(ins, k);
    if Le(x, s.best) {
      forall j: nat | j < k && !ins(j).validLoss.NaN?
        ensures Le(x, ins(j).validLoss)
      {
        LeOrdersNumbers(x, s.best, ins(j).validLoss);
      }
    }
  }

  /** The best loss never increases from one epoch to a later one. */
  lemma {:induction false} BestNeverIncreases(ins: nat -> Summary, j: nat, k: nat)
    requires j <= k
    ensures Le(After(ins, k).best, After(ins, j).best)
  {
    if j == k {
      AfterMatchesRecords(ins, k);
      LeOrdersNumbers(After(ins, k).best, After(ins, k).best, After(ins, k).best);
    } else {
      BestNeverIncreases(ins, j, k - 1);
      AfterMatchesRecords(ins, j);
      LeOrdersNumbers(After(ins, k).best, After(ins, k - 1).best, After(ins, j).best);
    }
  }

  /** The first epoch whose loss is not NaN always writes the checkpoint,
      because the best loss starts at +inf. */
  lemma FirstNumericLossSaves(ins: nat -> Summary, k: nat)
    requires forall j: nat :: j < k ==> ins(j).validLoss.NaN?
    requires !ins(k).validLoss.NaN?
    ensures Step(After(ins, k), ins(k)).save
  {
    SavesExactlyOnRecords(ins, k);
  }

  /** `LastRecord(ins, k) <= lo` says no record lies in `lo .. k-1`. */
  lemma LastRecordBelow(ins: nat -> Summary, lo: nat, k: nat)
    requires lo <= k
    ensures LastRecord(ins, k) <= lo <==> Stalled(ins, lo, k)
  {
  }

  /** The counter reaches the early-stop threshold after `k` epochs exactly
      when the last `EarlyStop` epochs were all non-records. */
  lemma StallReachesLimit(ins: nat -> Summary, k: nat)
    ensures After(ins, k).stall >= EarlyStop <==> StopsAt(ins, k)
  {
    AfterMatchesRecords(ins, k);
    if k >= EarlyStop {
      LastRecordBelow(ins, k - EarlyStop, k);
    }
  }

  /** The saved epochs are listed in increasing order, and an epoch below
      `k` is listed exactly when it is a record. */
  lemma {:induction false} RecordsListsRecords(ins: nat -> Summary, k: nat)
    ensures forall i: nat :: i in Records(ins, k) <==> i < k && IsRecord(ins, i)
    ensures forall a, b :: 0 <= a < b < |Records(ins, k)| ==> Records(ins, k)[a] < Records(ins, k)[b]
  {
    if k > 0 {
      RecordsListsRecords(ins, k - 1);
      var prev := Records(ins, k - 1);
      var cur := Records(ins, k);
      forall a, b | 0 <= a < b < |cur|
        ensures cur[a] < cur[b]
      {
        if b >= |prev| {
          assert cur[a] == prev[a] && prev[a] in prev;
        }
      }
    }
  }

  /** A progress line is due after epoch index `k` exactly when `k+1` is a
      multiple of `LogStep`. */
  lemma LogsGrow(k: nat)
    ensures Logs(k + 1) == Logs(k) + (if (k + 1) % LogStep == 0 then [k + 1] else [])
  {
  }

  // ----- the loop -----

  /** The loop's state: the controller, the saved epochs, the printed epochs. */
  datatype Progress = Progress(state: TrainState, saved: seq<nat>, logged: seq<nat>)

  const Begin: Progress := Progress(Initial, [], [])

  /** Applies one epoch's decision to the run. */
  function Apply(r: Progress, d: Decision): Progress {
    var e := r.state.epoch;
    Progress(d.next,
        if d.save then r.saved + [e] else r.saved,
        if d.log then r.logged + [e + 1] else r.logged)
  }

  /** `for epoch in range(n_epochs)` from epoch `r.state.epoch` on, with the
      early-stop `break`. */
  function Continue(ins: nat -> Summary, r: Progress): (r': Progress)
    requires r.state.epoch <= MaxEpochs
    ensures r.state.epoch <= r'.state.epoch <= MaxEpochs
    decreases MaxEpochs - r.state.epoch
  {
    if r.state.epoch == MaxEpochs then r
    else
      var d := Step(r.state, ins(r.state.epoch));
      var next := Apply(r, d);
      if d.halt then next else Continue(ins, next)
  }


  /** The run so far agrees with the reference and has not stopped early. */
  ghost predicate OnTrack(ins: nat -> Summary, r: Progress) {
    && r.state == After(ins, r.state.epoch)
    && r.saved == Records(ins, r.state.epoch)
    && r.logged == Logs(r.state.epoch)
    && forall j: nat :: j <= r.state.epoch ==> !StopsAt(ins, j)
  }

  /** One more epoch keeps the run in step with the reference, and the loop
      breaks exactly when the new epoch completes a stall. */
  lemma AdvanceOnTrack(ins: nat -> Summary, r: Progress)
    requires r.state == After(ins, r.state.epoch)
    requires r.saved == Records(ins, r.state.epoch)
    requires r.logged == Logs(r.state.epoch)
    ensures var k := r.state.epoch; var d := Step(r.state, ins(k)); var next := Apply(r, d);
      && next.state == After(ins, k + 1)
      && next.saved == Records(ins, k + 1)
      && next.logged == Logs(k + 1)
      && (d.halt <==> StopsAt(ins, k + 1))
  {
    var k := r.state.epoch;
    var d := Step(r.state, ins(k));
    SavesExactlyOnRecords(ins, k);
    LogsGrow(k);
    StallReachesLimit(ins, k + 1);
    assert d.next == After(ins, k + 1);
  }

  lemma {:induction false} ContinueHalts(ins: nat -> Summary, r: Progress)
    requires r.state.epoch <= MaxEpochs
    requires OnTrack(ins, r)
    ensures var r' := Continue(ins, r); var n := r'.state.epoch;
      && r'.state == After(ins, n)
      && r'.saved == Records(ins, n)
      && r'.logged == Logs(n)
      && (n < MaxEpochs ==> StopsAt(ins, n))
      && (forall j: nat :: j < n ==> !StopsAt(ins, j))
    decreases MaxEpochs - r.state.epoch
  {
    var k := r.state.epoch;
    if k < MaxEpochs {
      var d := Step(r.state, ins(k));
      var next := Apply(r, d);
      AdvanceOnTrack(ins, r);
      if !d.halt {
        assert OnTrack(ins, next);
        ContinueHalts(ins, next);
      }
    }
  }

  /** The whole training run on epoch summaries `ins`, from `valid_loss_min`
      at +inf. It stops right after the first epoch that completes a run of
      `EarlyStop` consecutive non-records, or after `MaxEpochs` epochs. The
      final state, the saved epochs and the printed epochs are the reference
      ones for that many epochs. */
  function Train(ins: nat -> Summary): (r: Progress)
    ensures var n := r.state.epoch;
      && n <= MaxEpochs
      && r.state == After(ins, n)
      && r.saved == Records(ins, n)
      && r.logged == Logs(n)
      && (n < MaxEpochs ==> StopsAt(ins, n))
      && (forall j: nat :: j < n ==> !StopsAt(ins, j))
  {
    ContinueHalts(ins, Begin);
    Continue(ins, Begin)
  }

  /** A constant numeric loss: every epoch ties the best and saves, so the
      counter stays 0 and training never stops early. Ties count as progress. */
  lemma {:induction false} ConstantLossNeverStops(ins: nat -> Summary, c: Loss, k: nat)
    requires !c.NaN?
    requires forall j: nat :: ins(j).validLoss == c
    ensures After(ins, k).stall == 0
  {
    if k > 0 {
      ConstantLossNeverStops(ins, c, k - 1);
      LeOrdersNumbers(c, c, c);
    }
  }

  /** A loss that is always NaN never compares `<=` anything: no epoch saves,
      the counter counts every epoch, and training stops after 100 epochs. */
  lemma {:induction false} NaNLossStopsAtLimit(ins: nat -> Summary, k: nat)
    requires forall j: nat :: ins(j).validLoss.NaN?
    ensures After(ins, k).stall == k
    ensures StopsAt(ins, EarlyStop)
  {
    if k > 0 {
      NaNLossStopsAtLimit(ins, k - 1);
    }
  }

  // ----- the run with the epoch averages computed from batches -----

  /** One epoch's batches from the two loaders. */
  datatype EpochData = EpochData(train: seq<Batch>, valid: seq<Batch>)

  /** The training script from epoch `r.state.epoch` on: an epoch whose
      averages divide by zero raises and ends the script. */
  function TrainFrom(data: nat -> EpochData, r: Progress): (res: Result<Progress, Fault>)
    requires r.state.epoch <= MaxEpochs
    ensures res.Success? ==> r.state.epoch <= res.value.state.epoch <= MaxEpochs
    decreases MaxEpochs - r.state.epoch
  {
    if r.state.epoch == MaxEpochs then Success(r)
    else
      var k := r.state.epoch;
      match Summarise(data(k).train, data(k).valid)
      case Failure(f) => Failure(f)
      case Success(e) =>
        var d := Step(r.state, e);
        var next := Apply(r, d);
        if d.halt then Success(next) else TrainFrom(data, next)
  }

  /** When every epoch's averages are defined, the script is the controller
      run on those averages. */
  lemma {:induction false} TrainFromAgrees(data: nat -> EpochData, ins: nat -> Summary, r: Progress)
    requires r.state.epoch <= MaxEpochs
    requires forall k: nat :: Summarise(data(k).train, data(k).valid) == Success(ins(k))
    ensures TrainFrom(data, r) == Success(Continue(ins, r))
    decreases MaxEpochs - r.state.epoch
  {
    var k := r.state.epoch;
    if k < MaxEpochs {
      var d := Step(r.state, ins(k));
      if !d.halt {
        TrainFromAgrees(data, ins, Apply(r, d));
      }
    }
  }

  /** The split is made once and `drop_last` keeps only full batches, so
      every epoch's loaders yield the same batches' worth of samples. Then
      the script divides by zero exactly when a split is smaller than one
      batch, and it does so in the first epoch, before any checkpoint: a
      later epoch never fails. */
  lemma FixedSplitFailsOnlyAtStart(data: nat -> EpochData, nTrain: nat, nValid: nat)
    requires forall k: nat ::
      FullBatches(data(k).train, nTrain) && FullBatches(data(k).valid, nValid)
    ensures TrainFrom(data, Begin).Failure? <==> nTrain < BatchSize || nValid < BatchSize
    ensures TrainFrom(data, Begin).Failure? ==> Summarise(data(0).train, data(0).valid).Failure?
  {
    LoaderSamples(data(0).train, nTrain);
    LoaderSamples(data(0).valid, nValid);
    if nTrain >= BatchSize && nValid >= BatchSize {
      forall k: nat
        ensures Summarise(data(k).train, data(k).valid).Success?
      {
        LoaderSamples(data(k).train, nTrain);
        LoaderSamples(data(k).valid, nValid);
      }
      EveryEpochDefined(data, Begin);
    }
  }

  /** When no epoch's averages divide by zero, the script never fails. */
  lemma {:induction false} EveryEpochDefined(data: nat -> EpochData, r: Progress)
    requires r.state.epoch <= MaxEpochs
    requires forall k: nat :: Summarise(data(k).train, data(k).valid).Success?
    ensures TrainFrom(data, r).Success?
    decreases MaxEpochs - r.state.epoch
  {
    var k := r.state.epoch;
    if k < MaxEpochs {
      var e := Summarise(data(k).train, data(k).valid).value;
      var d := Step(r.state, e);
      if !d.halt {
        EveryEpochDefined(data, Apply(r, d));
      }
    }
  }

  /** With fewer than one batch of validation samples the first epoch
      divides by zero, before any checkpoint is written. */
  lemma SmallValidationSplitCrashes(data: nat -> EpochData, n: nat)
    requires FullBatches(data(0).valid, n)
    requires n < BatchSize
    ensures TrainFrom(data, Begin) == Failure(ZeroDivision)
  {
  }

  /** The accuracy printed at the end lies in [0, 100] when every batch's
      hit count is bounded by its size. */
  lemma {:induction false} FinalAccuracyInRange(data: nat -> EpochData, r: Progress)
    requires r.state.epoch <= MaxEpochs
    requires 0.0 <= r.state.bestAcc <= 100.0
    requires forall k: nat, i :: 0 <= i < |data(k).valid| ==> WellFormed(data(k).valid[i])
    ensures TrainFrom(data, r).Success? ==> 0.0 <= TrainFrom(data, r).value.state.bestAcc <= 100.0
    decreases MaxEpochs - r.state.epoch
  {
    var k := r.state.epoch;
    if k < MaxEpochs {
      var sum := Summarise(data(k).train, data(k).valid);
      if sum.Success? {
        var d := Step(r.state, sum.value);
        if !d.halt {
          FinalAccuracyInRange(data, Apply(r, d));
        }
      }
    }
  }
}
