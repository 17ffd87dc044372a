/**
 * One epoch's bookkeeping in the training script: per-batch losses and hit
 * counts are accumulated, then averaged over the number of samples seen.
 *
 * Batches come from a data loader with `drop_last=True`, so every batch holds
 * exactly `BatchSize` samples and a trailing partial batch is discarded.
 * The network, the optimiser and the loss criterion are not modelled: each
 * batch's loss and its number of correct predictions are inputs.
 */
module Epoch {
  import opened Wrappers
  import opened Losses

  const BatchSize: nat := 200

  /** One mini-batch as the loop observes it: its sample count, its mean
      loss, and how many arg-max predictions matched the arg-max label. */
  datatype Batch = Batch(size: nat, loss: Loss, hits: nat)

  /** Element-wise comparison can match at most every sample of the batch. */
  predicate WellFormed(b: Batch) {
    b.hits <= b.size
  }

  /** What one epoch reports to the controller. */
  datatype Summary = Summary(trainLoss: Loss, validLoss: Loss, validAcc: real)

  /** Python raises on `x / 0`. */
  datatype Fault = ZeroDivision

  /** The shape of what the loader yields for a split of `n` samples. */
  predicate FullBatches(bs: seq<Batch>, n: nat) {
    && |bs| == n / BatchSize
    && forall i :: 0 <= i < |bs| ==> bs[i].size == BatchSize
  }

  /** `train_size += x.size(0)` / `valid_size += x.size(0)` over an epoch. */
  function Samples(bs: seq<Batch>): nat {
    if |bs| == 0 then 0 else Samples(bs[..|bs| - 1]) + bs[|bs| - 1].size
  }

  /** `valid_acc += pred.eq(...).sum().item()` over an epoch. */
  function Hits(bs: seq<Batch>): nat {
    if |bs| == 0 then 0 else Hits(bs[..|bs| - 1]) + bs[|bs| - 1].hits
  }

  /** A batch whose contribution `loss * size` is NaN. */
  predicate Poisoned(b: Batch) {
    b.loss.NaN? || (b.loss.PosInf? && b.size == 0)
  }

  /** `total += loss.item() * x.size(0)` over an epoch, starting at 0.0.
      The sum is NaN exactly when some batch contributes NaN. */
  function WeightedLoss(bs: seq<Batch>): (r: Loss)
    ensures r.NaN? <==> exists i :: 0 <= i < |bs| && Poisoned(bs[i])
    ensures r.PosInf? <==>
      (forall i :: 0 <= i < |bs| ==> !Poisoned(bs[i])) &&
      (exists i :: 0 <= i < |bs| && bs[i].loss.PosInf?)
  {
    if |bs| == 0 then Finite(0.0)
    else
      var prefix := bs[..|bs| - 1];
      var last := bs[|bs| - 1];
      assert forall i :: 0 <= i < |prefix| ==> prefix[i] == bs[i];
      Add(WeightedLoss(prefix), Scale(last.loss, last.size))
  }

  /** The epoch averages of train.py: average training loss, average
      validation loss and validation accuracy in percent. Either average
      divides by zero when its split yielded no batch. */
  function Summarise(train: seq<Batch>, valid: seq<Batch>): (r: Result<Summary, Fault>)
    ensures r.Failure? <==> Samples(train) == 0 || Samples(valid) == 0
    ensures r.Success? && (forall i :: 0 <= i < |valid| ==> WellFormed(valid[i])) ==>
      0.0 <= r.value.validAcc <= 100.0
    ensures r.Success? ==>
      (r.value.validLoss.NaN? <==> exists i :: 0 <= i < |valid| && Poisoned(valid[i]))
  {
    var trainSize := Samples(train);
    var validSize := Samples(valid);
    if trainSize == 0 then Failure(ZeroDivision)
    else if validSize == 0 then Failure(ZeroDivision)
    else
      HitsBounded(valid);
      var acc := Percent(Hits(valid), validSize);
      Success(Summary(Div(WeightedLoss(train), trainSize), Div(WeightedLoss(valid), validSize), acc))
  }

  /** `(100. * hits) / size`: a share of `size` as a percentage. */
  function Percent(hits: nat, size: nat): (p: real)
    requires size > 0
    ensures 0.0 <= p
    ensures hits <= size ==> p <= 100.0
    ensures p * size as real == 100.0 * hits as real
  {
    var h, n := hits as real, size as real;
    assert hits <= size ==> 100.0 * h <= 100.0 * n;
    (100.0 * h) / n
  }

  /** Each batch adds at most its own size to the hit count. */
  lemma {:induction false} HitsBounded(bs: seq<Batch>)
    ensures (forall i :: 0 <= i < |bs| ==> WellFormed(bs[i])) ==> Hits(bs) <= Samples(bs)
  {
    if |bs| > 0 {
      var prefix := bs[..|bs| - 1];
      assert forall i :: 0 <= i < |prefix| ==> prefix[i] == bs[i];
      HitsBounded(prefix);
    }
  }

  /** With `drop_last=True` a split of `n` samples contributes `n` rounded
      down to a multiple of the batch size; under one batch it contributes 0. */
  lemma LoaderSamples(bs: seq<Batch>, n: nat)
    requires FullBatches(bs, n)
    ensures Samples(bs) == n - n % BatchSize
    ensures Samples(bs) == 0 <==> n < BatchSize
  {
    FullBatchesSum(bs);
  }

  lemma {:induction false} FullBatchesSum(bs: seq<Batch>)
    requires forall i :: 0 <= i < |bs| ==> bs[i].size == BatchSize
    ensures Samples(bs) == |bs| * BatchSize
  {
    if |bs| > 0 {
      FullBatchesSum(bs[..|bs| - 1]);
    }
  }

  /** A validation split under one batch makes the epoch divide by zero. */
  lemma SmallSplitFails(train: seq<Batch>, valid: seq<Batch>, n: nat)
    requires FullBatches(valid, n)
    requires n < BatchSize
    ensures Summarise(train, valid) == Failure(ZeroDivision)
  {
  }
}
