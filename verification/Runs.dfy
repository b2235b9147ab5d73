/** Maximal stretches of consecutive true flags, independently of how anything detects them. */
module Runs {

  datatype Interval = Interval(start: nat, end: nat)

  /** A maximal stretch of at least two flags: flags `start` up to but not including `end`. */
  ghost predicate MaximalRun(flags: seq<bool>, r: Interval) {
    && r.start + 2 <= r.end <= |flags|
    && (forall i :: r.start <= i < r.end ==> flags[i])
    && (r.start == 0 || !flags[r.start - 1])
    && (r.end == |flags| || !flags[r.end])
  }

  ghost predicate InOrder(runs: seq<Interval>) {
    forall j, k :: 0 <= j < k < |runs| ==> runs[j].end < runs[k].start
  }

  /** `runs` lists every maximal run once, in time order. */
  ghost predicate Decomposition(flags: seq<bool>, runs: seq<Interval>) {
    && (forall r :: MaximalRun(flags, r) <==> r in runs)
    && InOrder(runs)
  }

  /** `n` is the number of true flags at the end. */
  ghost predicate TrailingRun(flags: seq<bool>, n: int) {
    && 0 <= n <= |flags|
    && (forall i :: |flags| - n <= i < |flags| ==> flags[i])
    && (n == |flags| || !flags[|flags| - n - 1])
  }

  lemma TrailingSnoc(flags: seq<bool>, flag: bool, n: int)
    requires TrailingRun(flags, n)
    ensures TrailingRun(flags + [flag], if flag then n + 1 else 0)
  {
  }

  /**
   One more flag keeps every run that was closed, closes or extends the run that was open, and can
   open exactly one new run: the trailing stretch, once it is two flags long.
   */
  lemma RunsSnoc(flags: seq<bool>, flag: bool, n: int, r: Interval)
    requires TrailingRun(flags, n)
    ensures MaximalRun(flags + [flag], r) <==>
            || (MaximalRun(flags, r) && (r.end < |flags| || !flag))
            || (flag && n >= 1 && r == Interval(|flags| - n, |flags| + 1))
  {
    var longer := flags + [flag];
    assert forall i :: 0 <= i < |flags| ==> longer[i] == flags[i];
    if MaximalRun(longer, r) && r.end == |longer| {
      assert longer[|flags|];
      assert forall i :: r.start <= i < |flags| ==> flags[i];
      assert r.start == 0 || !flags[r.start - 1];
    }
  }

  /** A run that is still open is the trailing stretch, and the last one of the list. */
  lemma LastIsOpen(flags: seq<bool>, n: int, runs: seq<Interval>)
    requires TrailingRun(flags, n) && Decomposition(flags, runs)
    ensures n >= 2 ==> |runs| > 0 && runs[|runs| - 1] == Interval(|flags| - n, |flags|)
    ensures forall k :: 0 <= k < |runs| && runs[k].end >= |flags| ==> n >= 2 && k == |runs| - 1
    ensures forall k :: 0 <= k < |runs| ==> runs[k].end <= |flags|
    ensures forall k :: 0 <= k < |runs| && runs[k].end < |flags| ==> runs[k].end < |flags| - n
  {
    forall k | 0 <= k < |runs|
      ensures runs[k].end <= |flags|
      ensures runs[k].end >= |flags| ==> n >= 2 && k == |runs| - 1
      ensures runs[k].end < |flags| ==> runs[k].end < |flags| - n
    {
      assert runs[k] in runs && MaximalRun(flags, runs[k]);
      assert runs[|runs| - 1] in runs && MaximalRun(flags, runs[|runs| - 1]);
      if runs[k].end == |flags| {
        assert flags[|flags| - 1] && flags[|flags| - 2];
      }
    }
    if n >= 2 {
      var open := Interval(|flags| - n, |flags|);
      assert MaximalRun(flags, open);
      var k :| 0 <= k < |runs| && runs[k] == open;
    }
  }

  /** The decomposition after one more flag, when `n` flags were trailing. */
  function RunsAfter(runs: seq<Interval>, n: int, length: nat, flag: bool): seq<Interval> {
    if !flag || n < 1 || n > length then runs
    else if n == 1 || runs == [] then runs + [Interval(length - n, length + 1)]
    else runs[..|runs| - 1] + [Interval(length - n, length + 1)]
  }

  lemma DecompositionSnoc(flags: seq<bool>, flag: bool, n: int, runs: seq<Interval>)
    requires TrailingRun(flags, n) && Decomposition(flags, runs)
    ensures Decomposition(flags + [flag], RunsAfter(runs, n, |flags|, flag))
  {
    var runs' := RunsAfter(runs, n, |flags|, flag);
    LastIsOpen(flags, n, runs);
    forall r ensures MaximalRun(flags + [flag], r) <==> r in runs' {
      RunsSnoc(flags, flag, n, r);
      assert MaximalRun(flags, r) <==> r in runs;
    }
  }

  lemma {:induction false} SortedUnique(a: seq<Interval>, b: seq<Interval>)
    requires InOrder(a) && InOrder(b)
    requires forall r :: r in a ==> r.start < r.end
    requires forall r :: r in a <==> r in b
    ensures a == b
  {
    if a != [] {
      assert a[0] in b;
    }
    if b != [] {
      assert b[0] in a;
    }
    if a != [] {
      var a', b' := a[..|a| - 1], b[..|b| - 1];
      assert a[|a| - 1] in b && b[|b| - 1] in a;
      assert a[|a| - 1] == b[|b| - 1];
      forall r ensures r in a' <==> r in b' {
        assert r in a <==> r in a' || r == a[|a| - 1];
        assert r in b <==> r in b' || r == b[|b| - 1];
      }
      SortedUnique(a', b');
    }
  }

  /** The flags determine the list. */
  lemma DecompositionUnique(flags: seq<bool>, a: seq<Interval>, b: seq<Interval>)
    requires Decomposition(flags, a) && Decomposition(flags, b)
    ensures a == b
  {
    forall r ensures r in a <==> r in b {
      assert MaximalRun(flags, r) <==> r in a;
    }
    forall r | r in a ensures r.start < r.end {
      assert MaximalRun(flags, r);
    }
    SortedUnique(a, b);
  }
}
