/**
 * The monitor's rolling window: a row of `N` samples of any sample type
 * `T` (a float32 value in the script, NaN and infinities included) updated by
 * "overwrite the last slot, then roll the row one step left".
 *
 * Because the write happens before the roll, the newest sample lands at
 * index N-2, not N-1; the last slot receives the sample that was at the
 * front, and the next insert overwrites it. The first N-1 slots therefore
 * behave as a FIFO of the N-1 most recent samples, and the last slot holds
 * the sample that most recently left that FIFO.
 */
module Window {

  /** `np.roll(x, -1)` on a 1 x N array: every sample moves one slot to the
      left and the first sample wraps round to the end. */
  function RotateLeft<T>(s: seq<T>): (r: seq<T>)
    ensures |r| == |s|
    ensures forall i :: 0 <= i < |s| ==> r[i] == s[(i + 1) % |s|]
  {
    if |s| == 0 then s else s[1..] + [s[0]]
  }

  /** `x[0][-1] = v; x = np.roll(x, -1)` on a non-empty window. */
  function Shift<T>(w: seq<T>, v: T): (r: seq<T>)
    requires |w| >= 1
    ensures |r| == |w|
    ensures |w| == 1 ==> r == [v]
    ensures |w| >= 2 ==> r == w[1..|w| - 1] + [v] + [w[0]]
    ensures |w| >= 2 ==> r[|w| - 2] == v
  {
    RotateLeft(w[..|w| - 1] + [v])
  }

  /** Shifting in every sample of `vs`, oldest first. */
  function ShiftAll<T>(w: seq<T>, vs: seq<T>): (r: seq<T>)
    requires |w| >= 1
    ensures |r| == |w|
  {
    if |vs| == 0 then w else Shift(ShiftAll(w, vs[..|vs| - 1]), vs[|vs| - 1])
  }

  /** The FIFO the first N-1 slots implement: the window's first N-1 samples
      followed by every sample shifted in since. */
  function Queue<T>(w: seq<T>, vs: seq<T>): seq<T>
    requires |w| >= 1
  {
    w[..|w| - 1] + vs
  }

  /** One insert moves the window one step along the queue. */
  lemma ShiftAlongQueue<T>(q: seq<T>, p: nat, v: T)
    requires p >= 1 && |q| >= p
    ensures var q' := q + [v];
      Shift(q[p..] + [q[p - 1]], v) == q'[p + 1..] + [q'[p]]
  {
  }

  /** The first insert is the rotated queue of one new sample. */
  lemma FirstShiftIsQueueTail<T>(w: seq<T>, v: T)
    requires |w| >= 1
    ensures var q := Queue(w, [v]);
      ShiftAll(w, [v]) == q[1..] + [q[0]]
  {
  }

  /** After `m >= 1` inserts the window is the last N-1 entries of the
      queue, followed by the entry just before them. */
  lemma {:induction false} ShiftAllIsQueueTail<T>(w: seq<T>, vs: seq<T>)
    requires |w| >= 1 && |vs| >= 1
    ensures var q := Queue(w, vs);
      ShiftAll(w, vs) == q[|vs|..] + [q[|vs| - 1]]
  {
    var m := |vs|;
    var v := vs[m - 1];
    if m == 1 {
      FirstShiftIsQueueTail(w, v);
      assert vs == [v];
    } else {
      var vs' := vs[..m - 1];
      ShiftAllIsQueueTail(w, vs');
      assert Queue(w, vs) == Queue(w, vs') + [v];
      ShiftAlongQueue(Queue(w, vs'), m - 1, v);
    }
  }

  /** Once N-1 samples have arrived, slots 0 .. N-2 hold the N-1 most recent
      samples in arrival order. */
  lemma RecentSamplesInOrder<T>(w: seq<T>, vs: seq<T>)
    requires |w| >= 1 && |vs| >= |w| - 1
    ensures ShiftAll(w, vs)[..|w| - 1] == vs[|vs| - (|w| - 1)..]
  {
    if |vs| >= 1 {
      ShiftAllIsQueueTail(w, vs);
      var q := Queue(w, vs);
      assert q[|vs|..] == vs[|vs| - (|w| - 1)..];
    }
  }

  /** Once N samples have arrived, no sample of the initial window is left:
      the window is the N-1 most recent samples followed by the one before. */
  lemma OriginalSamplesEvicted<T>(w: seq<T>, vs: seq<T>)
    requires |w| >= 1 && |vs| >= |w|
    ensures ShiftAll(w, vs) == vs[|vs| - (|w| - 1)..] + [vs[|vs| - |w|]]
  {
    ShiftAllIsQueueTail(w, vs);
    var q := Queue(w, vs);
    assert q[|vs|..] == vs[|vs| - (|w| - 1)..];
    assert q[|vs| - 1] == vs[|vs| - |w|];
  }
}
