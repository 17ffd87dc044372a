/**
 * The live monitor: poll the serial port, take the third comma-separated
 * field of each line as a sample, shift it into the window, and every
 * `interval` accepted samples classify the window and print a verdict.
 *
 * The serial port is a sequence of readings, the float parser and the
 * trained classifier are parameters (`parse`, `classify`). `width` is the
 * window length N and `interval` the sampling count K, both derived from
 * constants of a module that is not part of this model.
 */
module Inference {
  import opened Wrappers
  import opened Fields
  import opened Window

  /** What one pass of the polling loop finds: no data waiting, a line that
      decodes to text, or bytes whose `.decode()` raises. */
  datatype Reading = Idle | Line(text: string) | Undecodable

  datatype Verdict = Fine | Scratching

  /** The class index returned by the classifier, read as a verdict: 0 is
      the quiet class, any other index means scratching. */
  function VerdictOf(cls: nat): (v: Verdict)
    ensures v == Fine <==> cls == 0
  {
    if cls != 0 then Scratching else Fine
  }

  /** The text printed for a verdict. */
  function Message(v: Verdict): (m: string)
    ensures v.Fine? <==> m == "Everything looks fine"
    ensures v.Scratching? <==> m == "Are you scratching?"
  {
    match v
    case Fine => "Everything looks fine"
    case Scratching => "Are you scratching?"
  }

  /** The window `x` and the sample counter `index`. */
  datatype Monitor<T> = Monitor(window: seq<T>, count: nat)

  /** A window of `width` copies of `zero` (`np.zeros`) and a zero counter. */
  function Start<T>(width: nat, zero: T): (m: Monitor<T>)
    ensures |m.window| == width && m.count == 0
    ensures forall i :: 0 <= i < width ==> m.window[i] == zero
  {
    Monitor(seq(width, _ => zero), 0)
  }

  /** `float(line.split(',')[2])`, or `None` where that raises. */
  function Sample<T>(parse: string -> Option<T>, line: string): (r: Option<T>)
    ensures r.Some? <==> Count(line, ',') >= 2 && parse(Split(line, ',')[2]).Some?
    ensures r.Some? ==> r == parse(Split(line, ',')[2])
  {
    match ThirdField(line, ',')
    case None => None
    case Some(f) => parse(f)
  }

  /** Writing the last slot of an empty window raises `IndexError`, which
      the loop swallows like a parse failure. */
  function Insert<T>(w: seq<T>, v: T): (r: Option<seq<T>>)
    ensures r.Some? <==> |w| >= 1
    ensures r.Some? ==> |r.value| == |w|
  {
    if |w| == 0 then None else Some(Shift(w, v))
  }

  /** One pass of the loop: the next state and the verdict printed, if any;
      or `Crashed` when a decode error escapes the loop. */
  datatype Tick<T> = Next(state: Monitor<T>, verdict: Option<Verdict>) | Crashed

  function Poll<T>(interval: nat, parse: string -> Option<T>, classify: seq<T> -> nat,
                m: Monitor<T>, r: Reading): (t: Tick<T>)
    ensures t.Crashed? <==> r.Undecodable?
    ensures t.Next? ==> |t.state.window| == |m.window|
    ensures t.Next? && interval >= 1 && m.count < interval ==> t.state.count < interval
    ensures t.Next? && t.verdict.Some? ==>
      t.state.count == 0 && t.verdict.value == VerdictOf(classify(t.state.window))
    ensures r.Idle? ==> t == Next(m, None)
    ensures r.Line? && Sample(parse, r.text).None? ==> t == Next(m, None)
    ensures |m.window| == 0 && !r.Undecodable? ==> t == Next(m, None)
  {
    match r
    case Idle => Next(m, None)
    case Undecodable => Crashed
    case Line(text) =>
      match Sample(parse, text)
      case None => Next(m, None)
      case Some(v) => Accept(interval, classify, m, v)
  }

  /** A parsed sample `v`: insert it, count it, and classify on the K-th. */
  function Accept<T>(interval: nat, classify: seq<T> -> nat, m: Monitor<T>, v: T): (t: Tick<T>)
    ensures t.Next? && |t.state.window| == |m.window|
    ensures interval >= 1 && m.count < interval ==> t.state.count < interval
    ensures t.verdict.Some? ==>
      t.state.count == 0 && t.verdict.value == VerdictOf(classify(t.state.window))
    ensures |m.window| == 0 ==> t == Next(m, None)
  {
    match Insert(m.window, v)
    case None => Next(m, None)
    case Some(w) =>
      var count := m.count + 1;
      if count == interval then Next(Monitor(w, 0), Some(VerdictOf(classify(w))))
      else Next(Monitor(w, count), None)
  }

  /** The state after a run of readings, the verdicts printed in order, and
      whether the loop was ended by an exception. */
  datatype Trace<T> = Trace(state: Monitor<T>, verdicts: seq<Verdict>, crashed: bool)

  /** The loop fed `rs`, oldest reading first; nothing happens after a crash. */
  function Run<T>(interval: nat, parse: string -> Option<T>, classify: seq<T> -> nat,
               m0: Monitor<T>, rs: seq<Reading>): (t: Trace<T>)
    ensures |t.state.window| == |m0.window|
    ensures interval >= 1 && m0.count < interval ==> t.state.count < interval
  {
    if |rs| == 0 then Trace(m0, [], false)
    else
      var t := Run(interval, parse, classify, m0, rs[..|rs| - 1]);
      if t.crashed then t
      else
        match Poll(interval, parse, classify, t.state, rs[|rs| - 1])
        case Crashed => Trace(t.state, t.verdicts, true)
        case Next(m, v) => Trace(m, t.verdicts + (if v.Some? then [v.value] else []), false)
  }

  // ----- reference definitions, stated without the counter -----

  /** The samples that the readings carry, in arrival order. */
  function Accepted<T>(parse: string -> Option<T>, rs: seq<Reading>): seq<T> {
    if |rs| == 0 then []
    else
      var r := rs[|rs| - 1];
      Accepted(parse, rs[..|rs| - 1]) +
        (if r.Line? && Sample(parse, r.text).Some? then [Sample(parse, r.text).value] else [])
  }

  /** A verdict after every `interval`-th sample, on the window it leaves. */
  function Expected<T>(interval: nat, classify: seq<T> -> nat, w0: seq<T>, a: seq<T>): (vs: seq<Verdict>)
    requires interval >= 1 && |w0| >= 1
    ensures |vs| == |a| / interval
  {
    if |a| == 0 then []
    else
      var prev := Expected(interval, classify, w0, a[..|a| - 1]);
      DivModSucc(|a| - 1, interval);
      prev + (if |a| % interval == 0 then [VerdictOf(classify(ShiftAll(w0, a)))] else [])
  }

  /** Dividing `n + 1` by `k` from the quotient and remainder of `n`. */
  lemma DivModSucc(n: nat, k: nat)
    requires k >= 1
    ensures n % k + 1 == k ==> (n + 1) % k == 0 && (n + 1) / k == n / k + 1
    ensures n % k + 1 < k ==> (n + 1) % k == n % k + 1 && (n + 1) / k == n / k
  {
    var q, r := n / k, n % k;
    if r + 1 == k {
      DivModUnique(n + 1, k, q + 1, 0);
    } else {
      DivModUnique(n + 1, k, q, r + 1);
    }
  }

  /** Quotient and remainder are determined by `n == k * q + r, 0 <= r < k`. */
  lemma DivModUnique(n: int, k: int, q: int, r: int)
    requires k > 0 && 0 <= r < k && n == k * q + r
    ensures n / k == q && n % k == r
  {
    var q0, r0 := n / k, n % k;
    assert n == k * q0 + r0 && 0 <= r0 < k;
    assert k * q - k * q0 == k * (q - q0);
    if q > q0 {
      MulAtLeast(k, q - q0);
    } else if q < q0 {
      MulAtLeast(k, q0 - q);
    }
  }

  lemma MulAtLeast(k: int, d: int)
    requires k > 0 && d >= 1
    ensures k * d >= k
  {
  }

  // ----- the loop agrees with the reference -----

  /** One accepted sample keeps the loop in step with the reference. */
  lemma AcceptMatchesAccepted<T>(interval: nat, classify: seq<T> -> nat, w0: seq<T>,
      m: Monitor<T>, vs: seq<Verdict>, a: seq<T>, v: T)
    requires interval >= 1 && |w0| >= 1
    requires m.window == ShiftAll(w0, a) && m.count == |a| % interval
    requires vs == Expected(interval, classify, w0, a)
    ensures var t := Accept(interval, classify, m, v);
      && t.state.window == ShiftAll(w0, a + [v])
      && t.state.count == |a + [v]| % interval
      && vs + (if t.verdict.Some? then [t.verdict.value] else []) == Expected(interval, classify, w0, a + [v])
  {
    var a' := a + [v];
    var w := Shift(m.window, v);
    assert a'[..|a'| - 1] == a;
    assert ShiftAll(w0, a') == w;
    DivModSucc(|a|, interval);
  }

  /** One reading keeps the loop in step with the reference. */
  lemma PollMatchesAccepted<T>(interval: nat, parse: string -> Option<T>,
      classify: seq<T> -> nat, w0: seq<T>, m: Monitor<T>, vs: seq<Verdict>, a: seq<T>, r: Reading)
    requires interval >= 1 && |w0| >= 1 && !r.Undecodable?
    requires m.window == ShiftAll(w0, a) && m.count == |a| % interval
    requires vs == Expected(interval, classify, w0, a)
    ensures var t := Poll(interval, parse, classify, m, r);
      var a' := a + (if r.Line? && Sample(parse, r.text).Some? then [Sample(parse, r.text).value] else []);
      && t.Next?
      && t.state.window == ShiftAll(w0, a')
      && t.state.count == |a'| % interval
      && vs + (if t.verdict.Some? then [t.verdict.value] else []) == Expected(interval, classify, w0, a')
  {
    if r.Line? && Sample(parse, r.text).Some? {
      AcceptMatchesAccepted(interval, classify, w0, m, vs, a, Sample(parse, r.text).value);
    } else {
      assert a + [] == a;
    }
  }

  /** From a zero counter, on readings without decode errors and a non-empty
      window: the window is every accepted sample shifted in, the counter is
      the number accepted modulo K, and the verdicts are exactly one per K
      accepted samples, each on the window right after its K-th sample. */
  lemma {:induction false} RunMatchesAccepted<T>(interval: nat, parse: string -> Option<T>,
      classify: seq<T> -> nat, m0: Monitor<T>, rs: seq<Reading>)
    requires interval >= 1 && |m0.window| >= 1 && m0.count == 0
    requires forall i :: 0 <= i < |rs| ==> !rs[i].Undecodable?
    ensures var t := Run(interval, parse, classify, m0, rs); var a := Accepted(parse, rs);
      && !t.crashed
      && t.state.window == ShiftAll(m0.window, a)
      && t.state.count == |a| % interval
      && t.verdicts == Expected(interval, classify, m0.window, a)
  {
    if |rs| > 0 {
      var rs' := rs[..|rs| - 1];
      RunMatchesAccepted(interval, parse, classify, m0, rs');
      var t := Run(interval, parse, classify, m0, rs');
      PollMatchesAccepted(interval, parse, classify, m0.window, t.state, t.verdicts,
                          Accepted(parse, rs'), rs[|rs| - 1]);
    }
  }

  /** K accepted samples produce exactly one verdict, from the classifier's
      answer on the window after the last of them. */
  lemma OneVerdictPerInterval<T>(interval: nat, parse: string -> Option<T>,
      classify: seq<T> -> nat, m0: Monitor<T>, rs: seq<Reading>)
    requires interval >= 1 && |m0.window| >= 1 && m0.count == 0
    requires forall i :: 0 <= i < |rs| ==> !rs[i].Undecodable?
    requires |Accepted(parse, rs)| == interval
    ensures var t := Run(interval, parse, classify, m0, rs);
      t.verdicts == [VerdictOf(classify(t.state.window))] && t.state.count == 0
  {
    RunMatchesAccepted(interval, parse, classify, m0, rs);
    var a := Accepted(parse, rs);
    assert Expected(interval, classify, m0.window, a[..|a| - 1]) == [];
  }

  /** With K = 0 the counter never equals K after an increment: no verdict
      is ever printed and the counter counts every accepted sample. */
  lemma {:induction false} ZeroIntervalNeverFires<T>(parse: string -> Option<T>,
      classify: seq<T> -> nat, m0: Monitor<T>, rs: seq<Reading>)
    requires |m0.window| >= 1 && m0.count == 0
    requires forall i :: 0 <= i < |rs| ==> !rs[i].Undecodable?
    ensures var t := Run(0, parse, classify, m0, rs);
      !t.crashed && t.verdicts == [] && t.state.count == |Accepted(parse, rs)|
  {
    if |rs| > 0 {
      var rs' := rs[..|rs| - 1];
      ZeroIntervalNeverFires(parse, classify, m0, rs');
      var t := Run(0, parse, classify, m0, rs');
      var r := rs[|rs| - 1];
      assert !r.Undecodable?;
      if r.Line? && Sample(parse, r.text).Some? {
        var v := Sample(parse, r.text).value;
        assert Poll(0, parse, classify, t.state, r) == Accept(0, classify, t.state, v);
        assert Accept(0, classify, t.state, v).state.count == t.state.count + 1;
        assert |Accepted(parse, rs)| == |Accepted(parse, rs')| + 1;
      }
    }
  }

  /** With an empty window every insert raises and is skipped: the state
      never changes and nothing is printed. */
  lemma {:induction false} EmptyWindowNeverChanges<T>(interval: nat, parse: string -> Option<T>,
      classify: seq<T> -> nat, m0: Monitor<T>, rs: seq<Reading>)
    requires |m0.window| == 0
    ensures var t := Run(interval, parse, classify, m0, rs);
      t.state == m0 && t.verdicts == []
  {
    if |rs| > 0 {
      EmptyWindowNeverChanges(interval, parse, classify, m0, rs[..|rs| - 1]);
    }
  }

  /** A decode error ends the loop: later readings change nothing. */
  lemma {:induction false} CrashIsFinal<T>(interval: nat, parse: string -> Option<T>,
      classify: seq<T> -> nat, m0: Monitor<T>, rs: seq<Reading>, more: seq<Reading>)
    requires Run(interval, parse, classify, m0, rs).crashed
    ensures Run(interval, parse, classify, m0, rs + more) == Run(interval, parse, classify, m0, rs)
    decreases |more|
  {
    if |more| > 0 {
      var init := more[..|more| - 1];
      CrashIsFinal(interval, parse, classify, m0, rs, init);
      assert (rs + more)[..|rs + more| - 1] == rs + init;
    } else {
      assert rs + more == rs;
    }
  }

  /** The first decode error crashes the loop. */
  lemma DecodeErrorCrashes<T>(interval: nat, parse: string -> Option<T>,
      classify: seq<T> -> nat, m0: Monitor<T>, rs: seq<Reading>)
    requires |rs| >= 1 && rs[|rs| - 1].Undecodable?
    ensures Run(interval, parse, classify, m0, rs).crashed
  {
  }
}
