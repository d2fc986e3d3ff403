/**
 * The workload schedule of `main.py`: which files of the workload directory are
 * tuned, in which order, which are skipped as already completed, and how the
 * success, failure and skip counters evolve, including the stop on the first
 * failure for large workload sets. `run_tuning` is not modelled: its outcome
 * for each workload it is called on is given as a sequence of booleans.
 */
module MainLoop {
  import opened Text
  import opened Paths
  import opened Utils

  /** Sets with at least this many workloads are cut, and stop on the first failure. */
  const LargeSetSize: nat := 10

  /** How many workloads of a large set are tuned. */
  const LargeSetTake: nat := 13

  // ---------------------------------------------------------------------------
  // Selection
  // ---------------------------------------------------------------------------

  /** `[f for f in all_files if f.startswith(benchmark)]` */
  function MatchingWorkloads(files: seq<string>, benchmark: string): (r: seq<string>)
    ensures |r| <= |files|
    ensures forall x :: x in r <==> x in files && StartsWith(x, benchmark)
  {
    if files == [] then []
    else
      var rest := MatchingWorkloads(files[1..], benchmark);
      assert forall x :: x in files <==> x == files[0] || x in files[1..];
      if StartsWith(files[0], benchmark) then [files[0]] + rest else rest
  }

  /** A single name is kept exactly when it has the prefix. */
  lemma MatchingWorkloadsOne(f: string, benchmark: string)
    ensures MatchingWorkloads([f], benchmark) == if StartsWith(f, benchmark) then [f] else []
  {
    assert [f][1..] == [];
  }

  /**
   * The filter keeps the listing order: the matches of two listings one after
   * the other are the matches of the first followed by those of the second.
   * With `MatchingWorkloadsOne`, the result is the listed names with the
   * prefix, in listing order.
   */
  lemma {:induction false} MatchingWorkloadsAppend(a: seq<string>, b: seq<string>, benchmark: string)
    ensures MatchingWorkloads(a + b, benchmark) == MatchingWorkloads(a, benchmark) + MatchingWorkloads(b, benchmark)
  {
    if a == [] {
      assert a + b == b;
    } else {
      var ab := a + b;
      assert ab[0] == a[0] && ab[1..] == a[1..] + b;
      MatchingWorkloadsAppend(a[1..], b, benchmark);
      var ra, rb := MatchingWorkloads(a[1..], benchmark), MatchingWorkloads(b, benchmark);
      if StartsWith(a[0], benchmark) {
        assert [a[0]] + (ra + rb) == ([a[0]] + ra) + rb;
      }
    }
  }

  /** All workloads when there are fewer than 10, otherwise the first 13. */
  function Subset(workloads: seq<string>): (r: seq<string>)
    ensures |workloads| < LargeSetSize ==> r == workloads
    ensures |workloads| >= LargeSetSize ==> |r| == (if |workloads| < LargeSetTake then |workloads| else LargeSetTake)
    ensures r == workloads[..|r|]
  {
    if |workloads| < LargeSetSize then workloads
    else if |workloads| < LargeSetTake then workloads
    else workloads[..LargeSetTake]
  }

  /** The workloads `main.py` goes through: matching, naturally sorted, then cut. */
  function SelectedWorkloads(files: seq<string>, benchmark: string): seq<string> {
    Subset(NaturalSort(MatchingWorkloads(files, benchmark)))
  }

  /**
   * The selected workloads all match the benchmark prefix, are in natural order,
   * and are the whole sorted list when it is shorter than 13 and its first 13
   * otherwise: the 10 threshold does not change which workloads are selected.
   */
  lemma SelectionShape(files: seq<string>, benchmark: string)
    ensures var sorted := NaturalSort(MatchingWorkloads(files, benchmark));
            var r := SelectedWorkloads(files, benchmark);
            && (forall x :: x in r ==> x in files && StartsWith(x, benchmark))
            && SortedByKey(r)
            && r == (if |sorted| <= LargeSetTake then sorted else sorted[..LargeSetTake])
  {
    var matching := MatchingWorkloads(files, benchmark);
    var sorted := NaturalSort(matching);
    NaturalSortCorrect(matching);
    var r := Subset(sorted);
    forall x | x in r ensures x in files && StartsWith(x, benchmark) {
      assert x in sorted;
      assert x in multiset(matching);
    }
    assert SortedByKey(r) by {
      forall i, j | 0 <= i < j < |r| ensures KeyLe(NaturalKeys(r[i]), NaturalKeys(r[j])) {
        assert r[i] == sorted[i] && r[j] == sorted[j];
      }
    }
    if |sorted| <= LargeSetTake { assert sorted[..|sorted|] == sorted; }
  }

  // ---------------------------------------------------------------------------
  // The tuning loop
  // ---------------------------------------------------------------------------

  /** `workload_id in completed or workload in completed or basename(workload) in completed` */
  predicate IsCompleted(workload: string, completed: set<string>) {
    Stem(workload) in completed || workload in completed || Basename(workload) in completed
  }

  /**
   * The counters after some iterations, whether the loop has stopped, and the
   * `(workload_path, workload_name)` arguments of each `run_tuning` call.
   */
  datatype LoopState = LoopState(successful: nat, failed: nat, skipped: nat, stopped: bool,
                                 runs: seq<(string, string)>)

  /** One iteration for `workload`, where `ok` says whether `run_tuning` would return normally. */
  function Step(st: LoopState, workload: string, ok: bool, totalWorkloads: nat,
                completed: set<string>, basePath: string): LoopState
  {
    if st.stopped then st
    else if IsCompleted(workload, completed) then st.(skipped := st.skipped + 1)
    else
      var runs := st.runs + [(Join(basePath, workload), workload)];
      if ok then st.(successful := st.successful + 1, runs := runs)
      else st.(failed := st.failed + 1, runs := runs, stopped := totalWorkloads >= LargeSetSize)
  }

  /** The loop over `workloads` with the outcomes `oks`, by iterations. */
  function RunLoop(workloads: seq<string>, oks: seq<bool>, totalWorkloads: nat,
                   completed: set<string>, basePath: string): LoopState
    requires |oks| == |workloads|
  {
    if workloads == [] then LoopState(0, 0, 0, false, [])
    else
      var n := |workloads| - 1;
      Step(RunLoop(workloads[..n], oks[..n], totalWorkloads, completed, basePath),
           workloads[n], oks[n], totalWorkloads, completed, basePath)
  }

  /** The state after `i + 1` iterations is one step on from the state after `i`. */
  lemma RunLoopSnoc(workloads: seq<string>, oks: seq<bool>, total: nat,
                    completed: set<string>, basePath: string, i: nat)
    requires |oks| == |workloads| && i < |workloads|
    ensures RunLoop(workloads[..i + 1], oks[..i + 1], total, completed, basePath)
         == Step(RunLoop(workloads[..i], oks[..i], total, completed, basePath), workloads[i], oks[i], total, completed, basePath)
  {
    assert workloads[..i + 1][..i] == workloads[..i] && oks[..i + 1][..i] == oks[..i];
  }

  /** Once the loop has stopped, later workloads change nothing. */
  lemma {:induction false} StoppedStays(workloads: seq<string>, oks: seq<bool>, total: nat,
                                        completed: set<string>, basePath: string, i: nat)
    requires |oks| == |workloads| && i <= |workloads|
    requires RunLoop(workloads[..i], oks[..i], total, completed, basePath).stopped
    ensures RunLoop(workloads, oks, total, completed, basePath) == RunLoop(workloads[..i], oks[..i], total, completed, basePath)
    decreases |workloads| - i
  {
    if i == |workloads| {
      assert workloads[..i] == workloads && oks[..i] == oks;
    } else {
      var n := |workloads| - 1;
      assert workloads[..n][..i] == workloads[..i] && oks[..n][..i] == oks[..i];
      StoppedStays(workloads[..n], oks[..n], total, completed, basePath, i);
      var before := RunLoop(workloads[..n], oks[..n], total, completed, basePath);
      assert before.stopped;
      assert RunLoop(workloads, oks, total, completed, basePath)
          == Step(before, workloads[n], oks[n], total, completed, basePath);
    }
  }

  /**
   * The loop of `main.py` over the selected workloads: skip completed ones,
   * point `workload_path` and `workload_name` at the workload, call
   * `run_tuning`, count the outcome, and on a failure stop when the whole set
   * has at least 10 workloads.
   */
  method TuneLoop(workloads: seq<string>, oks: seq<bool>, totalWorkloads: nat,
                  completed: set<string>, basePath: string)
    returns (successful: nat, failed: nat, skipped: nat, runs: seq<(string, string)>)
    requires |oks| == |workloads|
    ensures var st := RunLoop(workloads, oks, totalWorkloads, completed, basePath);
            successful == st.successful && failed == st.failed && skipped == st.skipped && runs == st.runs
  {
    successful, failed, skipped, runs := 0, 0, 0, [];
    var i := 0;
    while i < |workloads|
      invariant 0 <= i <= |workloads|
      invariant RunLoop(workloads[..i], oks[..i], totalWorkloads, completed, basePath)
                == LoopState(successful, failed, skipped, false, runs)
    {
      var workload := workloads[i];
      RunLoopSnoc(workloads, oks, totalWorkloads, completed, basePath, i);
      ghost var next := Step(LoopState(successful, failed, skipped, false, runs), workload, oks[i],
                             totalWorkloads, completed, basePath);
      assert RunLoop(workloads[..i + 1], oks[..i + 1], totalWorkloads, completed, basePath) == next;
      if IsCompleted(workload, completed) {
        skipped := skipped + 1;
        i := i + 1;
        continue;
      }
      var workloadPath := Join(basePath, workload);
      runs := runs + [(workloadPath, workload)];
      if oks[i] {
        successful := successful + 1;
      } else {
        failed := failed + 1;
        if totalWorkloads >= LargeSetSize {
          assert next == LoopState(successful, failed, skipped, true, runs);
          StoppedStays(workloads, oks, totalWorkloads, completed, basePath, i + 1);
          return;
        }
      }
      i := i + 1;
    }
    assert workloads[..i] == workloads && oks[..i] == oks;
  }

  /**
   * Every selected workload is counted at most once: successes, failures and
   * skips add up to at most the number of workloads, and to exactly that number
   * when the loop did not stop early; every `run_tuning` call is a success or a
   * failure.
   */
  lemma {:induction false} CountsAddUp(workloads: seq<string>, oks: seq<bool>, total: nat,
                                       completed: set<string>, basePath: string)
    requires |oks| == |workloads|
    ensures var st := RunLoop(workloads, oks, total, completed, basePath);
            && st.successful + st.failed + st.skipped <= |workloads|
            && (!st.stopped ==> st.successful + st.failed + st.skipped == |workloads|)
            && |st.runs| == st.successful + st.failed
  {
    if workloads != [] {
      var n := |workloads| - 1;
      CountsAddUp(workloads[..n], oks[..n], total, completed, basePath);
    }
  }

  /** None of `runs` is for a completed workload. */
  predicate NoCompletedRun(runs: seq<(string, string)>, completed: set<string>) {
    forall k :: 0 <= k < |runs| ==> !IsCompleted(runs[k].1, completed)
  }

  /** No completed workload is passed to `run_tuning`. */
  lemma {:induction false} CompletedNotRun(workloads: seq<string>, oks: seq<bool>, total: nat,
                                           completed: set<string>, basePath: string)
    requires |oks| == |workloads|
    ensures NoCompletedRun(RunLoop(workloads, oks, total, completed, basePath).runs, completed)
  {
    if workloads != [] {
      var n := |workloads| - 1;
      CompletedNotRun(workloads[..n], oks[..n], total, completed, basePath);
      var prev := RunLoop(workloads[..n], oks[..n], total, completed, basePath);
      var st := RunLoop(workloads, oks, total, completed, basePath);
      assert st == Step(prev, workloads[n], oks[n], total, completed, basePath);
      var w := workloads[n];
      if !prev.stopped && !IsCompleted(w, completed) {
        assert st.runs == prev.runs + [(Join(basePath, w), w)];
        forall k | 0 <= k < |st.runs| ensures !IsCompleted(st.runs[k].1, completed) {
          if k < |prev.runs| { assert st.runs[k] == prev.runs[k]; } else { assert st.runs[k].1 == w; }
        }
      }
    }
  }

  /** The workloads that are not completed, in their order: those the loop passes to `run_tuning`. */
  function Pending(workloads: seq<string>, completed: set<string>): (r: seq<string>)
    ensures |r| <= |workloads|
    ensures forall x :: x in r <==> x in workloads && !IsCompleted(x, completed)
  {
    if workloads == [] then []
    else
      var n := |workloads| - 1;
      var rest := Pending(workloads[..n], completed);
      assert forall x :: x in workloads <==> x in workloads[..n] || x == workloads[n];
      if IsCompleted(workloads[n], completed) then rest else rest + [workloads[n]]
  }

  /**
   * The skip rule in both directions: as long as the loop has not stopped,
   * `run_tuning` has been called exactly for the workloads that are not
   * completed, in order, and every other workload has been counted as skipped.
   */
  lemma {:induction false} SkipRule(workloads: seq<string>, oks: seq<bool>, total: nat,
                                    completed: set<string>, basePath: string)
    requires |oks| == |workloads|
    ensures var st := RunLoop(workloads, oks, total, completed, basePath);
            var pending := Pending(workloads, completed);
            !st.stopped ==> TunedInOrder(st.runs, pending, basePath) && st.skipped == |workloads| - |pending|
  {
    if workloads != [] {
      var n := |workloads| - 1;
      var init := workloads[..n];
      var w := workloads[n];
      SkipRule(init, oks[..n], total, completed, basePath);
      var before := RunLoop(init, oks[..n], total, completed, basePath);
      var st := RunLoop(workloads, oks, total, completed, basePath);
      assert st == Step(before, w, oks[n], total, completed, basePath);
      var pre := Pending(init, completed);
      if !st.stopped {
        assert !before.stopped;
        if IsCompleted(w, completed) {
          assert Pending(workloads, completed) == pre;
        } else {
          assert Pending(workloads, completed) == pre + [w];
          assert st.runs == before.runs + [(Join(basePath, w), w)];
          TunedInOrderSnoc(before.runs, pre, basePath, w);
        }
      }
    }
  }

  lemma TunedInOrderSnoc(runs: seq<(string, string)>, ws: seq<string>, basePath: string, w: string)
    requires TunedInOrder(runs, ws, basePath)
    ensures TunedInOrder(runs + [(Join(basePath, w), w)], ws + [w], basePath)
  {
    var r, v := runs + [(Join(basePath, w), w)], ws + [w];
    forall k | 0 <= k < |v| ensures r[k] == (Join(basePath, v[k]), v[k]) {
      if k < |ws| { assert v[k] == ws[k] && r[k] == runs[k]; }
    }
  }

  /**
   * A workload the loop has passed before stopping was run exactly when it is
   * not completed: it appears among the `run_tuning` calls if and only if
   * it is not skipped.
   */
  lemma RunIffNotCompleted(workloads: seq<string>, oks: seq<bool>, total: nat,
                           completed: set<string>, basePath: string, w: string)
    requires |oks| == |workloads| && w in workloads
    requires !RunLoop(workloads, oks, total, completed, basePath).stopped
    ensures (Join(basePath, w), w) in RunLoop(workloads, oks, total, completed, basePath).runs
            <==> !IsCompleted(w, completed)
  {
    var st := RunLoop(workloads, oks, total, completed, basePath);
    var pending := Pending(workloads, completed);
    SkipRule(workloads, oks, total, completed, basePath);
    CompletedNotRun(workloads, oks, total, completed, basePath);
    if !IsCompleted(w, completed) {
      var k :| 0 <= k < |pending| && pending[k] == w;
      assert st.runs[k] == (Join(basePath, w), w);
    }
  }

  /**
   * The loop stops only for a set of at least 10 workloads and only on its
   * first failure; a smaller set never stops and goes through every workload.
   */
  lemma {:induction false} StopRule(workloads: seq<string>, oks: seq<bool>, total: nat,
                                    completed: set<string>, basePath: string)
    requires |oks| == |workloads|
    ensures var st := RunLoop(workloads, oks, total, completed, basePath);
            && (st.stopped <==> total >= LargeSetSize && st.failed > 0)
            && (total >= LargeSetSize ==> st.failed <= 1)
  {
    if workloads != [] {
      var n := |workloads| - 1;
      StopRule(workloads[..n], oks[..n], total, completed, basePath);
    }
  }

  /** `runs` holds one `run_tuning` call per workload, in order, with path `join(basePath, workload)`. */
  predicate TunedInOrder(runs: seq<(string, string)>, workloads: seq<string>, basePath: string) {
    |runs| == |workloads|
    && forall k :: 0 <= k < |workloads| ==> runs[k] == (Join(basePath, workloads[k]), workloads[k])
  }

  /** With no completed workloads and no failures, every selected workload is tuned, in order. */
  lemma {:induction false} CleanRunTunesAll(workloads: seq<string>, oks: seq<bool>, total: nat, basePath: string)
    requires |oks| == |workloads| && forall k :: 0 <= k < |oks| ==> oks[k]
    ensures var st := RunLoop(workloads, oks, total, {}, basePath);
            && !st.stopped && st.successful == |workloads| && st.failed == 0 && st.skipped == 0
            && TunedInOrder(st.runs, workloads, basePath)
  {
    if workloads != [] {
      var n := |workloads| - 1;
      var init := workloads[..n];
      CleanRunTunesAll(init, oks[..n], total, basePath);
      var before := RunLoop(init, oks[..n], total, {}, basePath);
      var w := workloads[n];
      assert !IsCompleted(w, {});
      var st := RunLoop(workloads, oks, total, {}, basePath);
      assert st == Step(before, w, oks[n], total, {}, basePath);
      assert st.runs == before.runs + [(Join(basePath, w), w)];
      forall k | 0 <= k < |workloads| ensures st.runs[k] == (Join(basePath, workloads[k]), workloads[k]) {
        if k < n { assert init[k] == workloads[k] && st.runs[k] == before.runs[k]; }
      }
    }
  }
}
