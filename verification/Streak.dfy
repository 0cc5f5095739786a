/** Turning raw probe results into a stable state. */
module Streaks {

  /** The last t of the first k results are all the same. */
  ghost predicate Window(history: seq<bool>, k: nat, t: nat) {
    t <= k <= |history| && forall i :: k - t <= i < k ==> history[i] == history[k - 1]
  }

  /** The state after a history: healthy at first, and changed by every window of t equal results. */
  function StateAfter(history: seq<bool>, t: nat): bool
    requires t >= 1
  {
    if history == [] then true
    else if Steady(history, t) then history[|history| - 1]
    else StateAfter(history[..|history| - 1], t)
  }

  /** The last t results are all the same. */
  predicate Steady(history: seq<bool>, t: nat)
    requires t >= 1
  {
    t <= |history| && forall i :: |history| - t <= i < |history| ==> history[i] == history[|history| - 1]
  }

  /** How many results at the end differ from v. */
  function Against(history: seq<bool>, v: bool): nat {
    if history == [] || history[|history| - 1] == v then 0 else 1 + Against(history[..|history| - 1], v)
  }

  class Streak {
    var healthy: bool
    var run: nat
    // What has been observed, and the number of equal results that count.
    ghost const threshold: nat
    ghost var history: seq<bool>

    ghost predicate Valid()
      reads this
    {
      threshold >= 1 && healthy == StateAfter(history, threshold) && run == Against(history, healthy) < threshold
    }

    constructor (ghost threshold: nat)
      requires threshold >= 1
      ensures Valid() && history == [] && healthy && this.threshold == threshold
    {
      this.threshold := threshold;
      healthy, run, history := true, 0, [];
    }

    /** After any observations the state is the value of the most recent run of threshold equal results. */
    method Observe(ok: bool, threshold: nat)
      requires Valid() && threshold == this.threshold
      modifies this
      ensures Valid() && history == old(history) + [ok]
    {
      OneMore(history, ok, healthy, run, threshold);
      history := history + [ok];
      if ok == healthy {
        run := 0;
        return;
      }
      run := run + 1;
      if run >= threshold {
        healthy, run := ok, 0;
      }
    }
  }

  /** What one more result does to the state and to the run against it. */
  lemma OneMore(history: seq<bool>, ok: bool, healthy: bool, run: nat, t: nat)
    requires t >= 1 && healthy == StateAfter(history, t) && run == Against(history, healthy) < t
    ensures var flips, h := ok != healthy && run + 1 >= t, history + [ok];
      && StateAfter(h, t) == (if flips then ok else healthy)
      && Against(h, StateAfter(h, t)) == if ok == healthy || flips then 0 else run + 1
  {
    var h := history + [ok];
    assert h[..|h| - 1] == history && h[|h| - 1] == ok;
    assert Against(h, ok) == 0 && Against(h, !ok) == 1 + Against(history, !ok);
    if ok == healthy {
      assert Steady(h, t) ==> StateAfter(h, t) == ok;
    } else {
      SteadyMeans(h, ok, t);
    }
  }

  /** The results at the end that differ from !v are exactly the last ones equal to v. */
  lemma {:induction false} RunLength(history: seq<bool>, v: bool)
    ensures Against(history, !v) <= |history|
    ensures forall i :: |history| - Against(history, !v) <= i < |history| ==> history[i] == v
    ensures Against(history, !v) < |history| ==> history[|history| - 1 - Against(history, !v)] != v
  {
    if history != [] && history[|history| - 1] == v {
      RunLength(history[..|history| - 1], v);
    }
  }

  lemma SteadyMeans(history: seq<bool>, v: bool, t: nat)
    requires t >= 1 && history != [] && history[|history| - 1] == v
    ensures Steady(history, t) <==> Against(history, !v) >= t
  {
    RunLength(history, v);
  }

  /** The state is the value of the most recent window of t identical results. */
  lemma {:induction false} StateIsLastWindow(history: seq<bool>, t: nat, k: nat)
    requires t >= 1 && Window(history, k, t) && forall j :: k < j <= |history| ==> !Window(history, j, t)
    ensures StateAfter(history, t) == history[k - 1]
    decreases |history|
  {
    var n := |history|;
    if k < n {
      assert !Window(history, n, t);
      var rest := history[..n - 1];
      forall j | t <= j <= n - 1 ensures Window(rest, j, t) <==> Window(history, j, t) {}
      StateIsLastWindow(rest, t, k);
    } else {
      assert Steady(history, t);
    }
  }

  /** Without such a window the state is healthy. */
  lemma {:induction false} StateWithoutWindow(history: seq<bool>, t: nat)
    requires t >= 1 && forall j :: 0 <= j <= |history| ==> !Window(history, j, t)
    ensures StateAfter(history, t)
    decreases |history|
  {
    if history != [] {
      var rest := history[..|history| - 1];
      assert !Window(history, |history|, t);
      forall j | 0 <= j <= |rest| ensures !Window(rest, j, t) { assert !Window(history, j, t); }
      StateWithoutWindow(rest, t);
    }
  }
}
