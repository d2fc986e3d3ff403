/**
 * The multi-threaded workload executor of `tuning_utils/multi_thread.py`:
 * how a `.wg` text becomes per-thread query lists (`data_pre`), how one worker
 * counts its queries (`one_thread_given_queries.run`), and how the statistics
 * of all workers are aggregated and invalidated after the threads have joined.
 * Threads, the clock, the log files and the database are not modelled: query
 * outcomes and the wall-clock time are parameters.
 */
module MultiThread {
  import opened Text

  /** Workloads are cut to this many queries. */
  const MaxQueries: nat := 3000

  /** Average latency reported for an invalidated iteration (`1e9`). */
  const LargeInvalidLatency: real := 1000000000.0

  // ---------------------------------------------------------------------------
  // Splitting: `re.split(r'[;\n]+', text)`
  // ---------------------------------------------------------------------------

  predicate IsSeparator(c: char) { c == ';' || c == '\n' }

  predicate NoSeparator(s: string) {
    forall k :: 0 <= k < |s| ==> !IsSeparator(s[k])
  }

  /** The first index at or after `from` that holds a separator, or `|s|`. */
  function PieceEnd(s: string, from: nat): (r: nat)
    requires from <= |s|
    ensures from <= r <= |s|
    ensures forall k :: from <= k < r ==> !IsSeparator(s[k])
    ensures r < |s| ==> IsSeparator(s[r])
    decreases |s| - from
  {
    if from == |s| || IsSeparator(s[from]) then from else PieceEnd(s, from + 1)
  }

  /** The first index at or after `from` that does not hold a separator, or `|s|`. */
  function RunEnd(s: string, from: nat): (r: nat)
    requires from <= |s|
    ensures from <= r <= |s|
    ensures forall k :: from <= k < r ==> IsSeparator(s[k])
    ensures r < |s| ==> !IsSeparator(s[r])
    decreases |s| - from
  {
    if from == |s| || !IsSeparator(s[from]) then from else RunEnd(s, from + 1)
  }

  /** The pieces of `s[from..]`. */
  function SplitFrom(s: string, from: nat): (r: seq<string>)
    requires from <= |s|
    ensures |r| >= 1
    decreases |s| - from
  {
    var i := PieceEnd(s, from);
    if i == |s| then [s[from..]] else [s[from..i]] + SplitFrom(s, RunEnd(s, i))
  }

  /**
   * The pieces `re.split(r'[;\n]+', s)` returns: the text between maximal runs
   * of `;` and newline, with an empty first (last) piece when `s` starts (ends)
   * with a separator.
   */
  function SplitOnSeparatorRuns(s: string): (r: seq<string>)
    ensures |r| >= 1
  {
    SplitFrom(s, 0)
  }

  /**
   * No piece holds a separator; only the first and the last piece can be
   * empty, and they are empty exactly when the text starts (ends) with a
   * separator or is empty.
   */
  lemma {:induction false} SplitFromShape(s: string, from: nat)
    requires from <= |s|
    ensures var r := SplitFrom(s, from);
            && (forall i :: 0 <= i < |r| ==> NoSeparator(r[i]))
            && (forall i :: 0 < i < |r| - 1 ==> r[i] != "")
            && (r[0] == "" <==> from == |s| || IsSeparator(s[from]))
            && (r[|r| - 1] == "" <==> from == |s| || IsSeparator(s[|s| - 1]))
    decreases |s| - from
  {
    var i := PieceEnd(s, from);
    var piece := if i == |s| then s[from..] else s[from..i];
    assert NoSeparator(piece) by {
      forall k | 0 <= k < |piece| ensures !IsSeparator(piece[k]) { assert piece[k] == s[from + k]; }
    }
    if i < |s| {
      var j := RunEnd(s, i);
      SplitFromShape(s, j);
    }
  }

  lemma SplitPiecesShape(s: string)
    ensures var r := SplitOnSeparatorRuns(s);
            && (forall i :: 0 <= i < |r| ==> NoSeparator(r[i]))
            && (forall i :: 0 < i < |r| - 1 ==> r[i] != "")
            && (r[0] == "" <==> s == "" || IsSeparator(s[0]))
            && (r[|r| - 1] == "" <==> s == "" || IsSeparator(s[|s| - 1]))
  {
    SplitFromShape(s, 0);
  }

  /** `s[from..]` with every maximal run of separators replaced by a single `;`. */
  function CollapseFrom(s: string, from: nat): string
    requires from <= |s|
    decreases |s| - from
  {
    if from == |s| then []
    else if IsSeparator(s[from]) then ";" + CollapseFrom(s, RunEnd(s, from))
    else [s[from]] + CollapseFrom(s, from + 1)
  }

  /** The text with every maximal run of separators replaced by a single `;`. */
  function CollapseSeparatorRuns(s: string): string {
    CollapseFrom(s, 0)
  }

  /** `";".join(pieces)` */
  function JoinWithSemicolon(pieces: seq<string>): string
    requires |pieces| >= 1
  {
    if |pieces| == 1 then pieces[0] else pieces[0] + ";" + JoinWithSemicolon(pieces[1..])
  }

  lemma {:induction false} CollapseKeepsPlainPrefix(s: string, from: nat, i: nat)
    requires from <= i <= |s|
    requires forall k :: from <= k < i ==> !IsSeparator(s[k])
    ensures CollapseFrom(s, from) == s[from..i] + CollapseFrom(s, i)
    decreases i - from
  {
    if from < i {
      CollapseKeepsPlainPrefix(s, from + 1, i);
      assert !IsSeparator(s[from]);
      assert CollapseFrom(s, from) == [s[from]] + CollapseFrom(s, from + 1);
      assert s[from..i] == [s[from]] + s[from + 1..i];
    } else {
      assert s[from..i] == [];
    }
  }

  lemma {:induction false} SplitFromThenJoin(s: string, from: nat)
    requires from <= |s|
    ensures JoinWithSemicolon(SplitFrom(s, from)) == CollapseFrom(s, from)
    decreases |s| - from
  {
    var i := PieceEnd(s, from);
    CollapseKeepsPlainPrefix(s, from, i);
    if i < |s| {
      var j := RunEnd(s, i);
      SplitFromThenJoin(s, j);
      var rest := SplitFrom(s, j);
      assert ([s[from..i]] + rest)[1..] == rest;
    }
  }

  /**
   * Splitting and joining again with `;` gives the text with each separator run
   * collapsed to one `;`: the pieces are exactly the text between the runs.
   */
  lemma SplitThenJoinCollapses(s: string)
    ensures JoinWithSemicolon(SplitOnSeparatorRuns(s)) == CollapseSeparatorRuns(s)
  {
    SplitFromThenJoin(s, 0);
  }

  // ---------------------------------------------------------------------------
  // From pieces to the query list
  // ---------------------------------------------------------------------------

  /** The pieces after `query.strip() + ";"` has been applied to each of them. */
  function Terminated(pieces: seq<string>): seq<string> {
    seq(|pieces|, i requires 0 <= i < |pieces| => Strip(pieces[i]) + ";")
  }

  /** `if sql_list[-1] == ";": sql_list = sql_list[0:-1]` */
  function DropEmptyLast(qs: seq<string>): (r: seq<string>)
    requires |qs| >= 1
    ensures r == qs || r == qs[..|qs| - 1]
    ensures |r| < |qs| <==> qs[|qs| - 1] == ";"
  {
    if qs[|qs| - 1] == ";" then qs[..|qs| - 1] else qs
  }

  /** `sql_list[:3000]` when longer than 3000 */
  function Cap(qs: seq<string>): (r: seq<string>)
    ensures |r| <= |qs| && |r| <= MaxQueries && r == qs[..|r|]
    ensures |r| == if |qs| > MaxQueries then MaxQueries else |qs|
  {
    if |qs| > MaxQueries then qs[..MaxQueries] else qs
  }

  /** The query list `data_pre` partitions. */
  function PreparedQueries(text: string): seq<string> {
    QueriesOfPieces(SplitOnSeparatorRuns(text))
  }

  /** The query list built from the pieces of a split. */
  function QueriesOfPieces(pieces: seq<string>): seq<string>
    requires |pieces| >= 1
  {
    Cap(DropEmptyLast(Terminated(pieces)))
  }

  lemma QueriesOfPiecesLength(pieces: seq<string>)
    requires |pieces| >= 1
    ensures var kept := if Strip(pieces[|pieces| - 1]) == "" then |pieces| - 1 else |pieces|;
            |QueriesOfPieces(pieces)| == (if kept > MaxQueries then MaxQueries else kept)
  {
    var t := Terminated(pieces);
    var last := Strip(pieces[|pieces| - 1]);
    assert t[|t| - 1] == ";" <==> last == "" by {
      assert t[|t| - 1] == last + ";";
      if t[|t| - 1] == ";" { assert |last| == 0; }
    }
  }

  lemma QueriesOfPiecesElements(pieces: seq<string>)
    requires |pieces| >= 1
    ensures var r := QueriesOfPieces(pieces);
            forall i :: 0 <= i < |r| ==> r[i] == Strip(pieces[i]) + ";"
  {
    var t := Terminated(pieces);
    var d := DropEmptyLast(t);
    var r := Cap(d);
    forall i | 0 <= i < |r| ensures r[i] == Strip(pieces[i]) + ";" {
      assert r[i] == d[i] == t[i];
    }
  }

  /**
   * Query `i` is piece `i` stripped with one `;` appended; at most the first 3000
   * survive, and the last piece is dropped exactly when it strips to nothing.
   */
  lemma PreparedQueriesFromPieces(text: string)
    ensures var pieces := SplitOnSeparatorRuns(text);
            var kept := if Strip(pieces[|pieces| - 1]) == "" then |pieces| - 1 else |pieces|;
            var r := PreparedQueries(text);
            && |r| == (if kept > MaxQueries then MaxQueries else kept)
            && forall i :: 0 <= i < |r| ==> r[i] == Strip(pieces[i]) + ";"
  {
    QueriesOfPiecesLength(SplitOnSeparatorRuns(text));
    QueriesOfPiecesElements(SplitOnSeparatorRuns(text));
  }

  /**
   * Every prepared query ends with the one `;` that was appended and holds no
   * other `;` or newline.
   */
  lemma PreparedQueryHasOneTerminator(text: string, i: nat)
    requires i < |PreparedQueries(text)|
    ensures var q := PreparedQueries(text)[i];
            && q != [] && q[|q| - 1] == ';'
            && NoSeparator(q[..|q| - 1])
  {
    var pieces := SplitOnSeparatorRuns(text);
    PreparedQueriesFromPieces(text);
    SplitPiecesShape(text);
    assert NoSeparator(pieces[i]);
    TerminatedPieceHasOneTerminator(pieces[i]);
  }

  lemma TerminatedPieceHasOneTerminator(p: string)
    requires NoSeparator(p)
    ensures var q := Strip(p) + ";";
            q[|q| - 1] == ';' && NoSeparator(q[..|q| - 1])
  {
    var q := Strip(p) + ";";
    var lo, hi := StripIsSlice(p);
    assert q[..|q| - 1] == p[lo..hi];
    forall k | 0 <= k < |q| - 1 ensures !IsSeparator(q[k]) {
      assert q[k] == p[lo + k];
    }
  }

  // ---------------------------------------------------------------------------
  // Round-robin partition: `sql_list_idx[i % thread_num].append(sql_list[i])`
  // ---------------------------------------------------------------------------

  /** The queries whose index is `t` modulo `n`, in their original order. */
  function ByResidue(qs: seq<string>, n: nat, t: nat): seq<string>
    requires n > 0
  {
    if qs == [] then []
    else ByResidue(qs[..|qs| - 1], n, t) + (if (|qs| - 1) % n == t then [qs[|qs| - 1]] else [])
  }

  /**
   * The partition `sql_list_idx`, a dictionary with keys `0 .. n-1`, as the
   * sequence of its values: thread `t` gets the queries whose index is `t` modulo `n`.
   */
  function RoundRobin(qs: seq<string>, n: nat): (m: seq<seq<string>>)
    requires n > 0
    ensures |m| == n
    ensures forall t :: 0 <= t < n ==> m[t] == ByResidue(qs, n, t)
  {
    seq(n, t requires 0 <= t < n => ByResidue(qs, n, t))
  }

  lemma MulAtLeast(a: int, n: int)
    requires a >= 1 && n > 0
    ensures a * n >= n
  {
    var b := a - 1;
    assert a * n == b * n + n;
    assert b * n >= 0;
  }

  /** Quotient and remainder are unique. */
  lemma DivModUnique(i: int, n: int, k: int, t: int)
    requires n > 0 && 0 <= t < n && i == k * n + t
    ensures i / n == k && i % n == t
  {
    var q, r := i / n, i % n;
    assert i == q * n + r && 0 <= r < n;
    assert (k - q) * n == r - t;
    if k > q { MulAtLeast(k - q, n); }
    else if k < q { MulAtLeast(q - k, n); }
  }

  lemma DivModSucc(m: nat, n: nat)
    requires n > 0
    ensures m % n + 1 < n ==> (m + 1) / n == m / n && (m + 1) % n == m % n + 1
    ensures m % n + 1 == n ==> (m + 1) / n == m / n + 1 && (m + 1) % n == 0
  {
    var q, r := m / n, m % n;
    assert m == q * n + r;
    if r + 1 < n { DivModUnique(m + 1, n, q, r + 1); }
    else {
      assert m + 1 == (q + 1) * n + 0;
      DivModUnique(m + 1, n, q + 1, 0);
    }
  }

  /** Thread `t` gets `len / n` queries, plus one when `t < len % n`. */
  lemma {:induction false} ResidueLength(qs: seq<string>, n: nat, t: nat)
    requires n > 0 && t < n
    ensures |ByResidue(qs, n, t)| == |qs| / n + (if t < |qs| % n then 1 else 0)
  {
    if qs != [] {
      var m := |qs| - 1;
      ResidueLength(qs[..m], n, t);
      DivModSucc(m, n);
    }
  }

  /** Any two threads' lists differ in size by at most one. */
  lemma BalancedPartition(qs: seq<string>, n: nat, t1: nat, t2: nat)
    requires n > 0 && t1 < n && t2 < n
    ensures var d := |RoundRobin(qs, n)[t1]| - |RoundRobin(qs, n)[t2]|; -1 <= d <= 1
  {
    ResidueLength(qs, n, t1);
    ResidueLength(qs, n, t2);
  }

  lemma {:induction false} ResiduePrefix(qs: seq<string>, n: nat, t: nat, i: nat)
    requires n > 0 && i <= |qs|
    ensures |ByResidue(qs[..i], n, t)| <= |ByResidue(qs, n, t)|
    ensures ByResidue(qs[..i], n, t) == ByResidue(qs, n, t)[..|ByResidue(qs[..i], n, t)|]
    decreases |qs| - i
  {
    if i < |qs| {
      ResiduePrefix(qs, n, t, i + 1);
      assert qs[..i + 1][..i] == qs[..i];
      var a, b := ByResidue(qs[..i], n, t), ByResidue(qs[..i + 1], n, t);
      assert b == a + (if i % n == t then [qs[i]] else []);
    } else {
      assert qs[..i] == qs;
    }
  }

  /** Query `i` goes to thread `i % n`, at position `i / n` of its list. */
  lemma {:induction false} QueryPlacement(qs: seq<string>, n: nat, i: nat)
    requires n > 0 && i < |qs|
    ensures i / n < |RoundRobin(qs, n)[i % n]|
    ensures RoundRobin(qs, n)[i % n][i / n] == qs[i]
  {
    var t, k := i % n, i / n;
    var pre := qs[..i + 1];
    var before := ByResidue(qs[..i], n, t);
    assert |before| == k by { ResidueLength(qs[..i], n, t); }
    assert ByResidue(pre, n, t) == before + [qs[i]] by {
      assert pre[..i] == qs[..i];
    }
    ResiduePrefix(qs, n, t, i + 1);
    assert RoundRobin(qs, n)[t] == ByResidue(qs, n, t);
  }

  /**
   * Conversely, position `k` of thread `t`'s list holds query `k * n + t`; so every
   * list keeps the queries' relative order.
   */
  lemma ListPositionSource(qs: seq<string>, n: nat, t: nat, k: nat)
    requires n > 0 && t < n && k < |RoundRobin(qs, n)[t]|
    ensures k * n + t < |qs|
    ensures RoundRobin(qs, n)[t][k] == qs[k * n + t]
  {
    var i := k * n + t;
    ResidueLength(qs, n, t);
    PositionInRange(|qs|, n, k, t);
    DivModUnique(i, n, k, t);
    QueryPlacement(qs, n, i);
  }

  /** Position `k` of a list holding `len / n` items, plus one when `t < len % n`, is query `k * n + t < len`. */
  lemma PositionInRange(len: nat, n: nat, k: nat, t: nat)
    requires n > 0 && t < n && k < len / n + (if t < len % n then 1 else 0)
    ensures k * n + t < len
  {
    var q, r := len / n, len % n;
    assert len == q * n + r;
    if k < q {
      MulAtLeast(q - k, n);
      assert (q - k) * n == q * n - k * n;
    }
  }

  /** Sum of the list sizes. */
  function SizeSum(m: seq<seq<string>>): nat {
    if m == [] then 0 else SizeSum(m[..|m| - 1]) + |m[|m| - 1]|
  }

  /** Multiset union of the lists. */
  function Pooled(m: seq<seq<string>>): multiset<string> {
    if m == [] then multiset{} else Pooled(m[..|m| - 1]) + multiset(m[|m| - 1])
  }

  lemma {:induction false} AppendOneSize(a: seq<seq<string>>, j: nat, x: string)
    requires j < |a|
    ensures SizeSum(a[j := a[j] + [x]]) == SizeSum(a) + 1
  {
    var b := a[j := a[j] + [x]];
    var m := |a| - 1;
    if j < m {
      assert b[..m] == a[..m][j := a[j] + [x]];
      AppendOneSize(a[..m], j, x);
      assert b[m] == a[m];
    } else {
      assert b[..m] == a[..m];
    }
  }

  lemma {:induction false} AppendOnePooled(a: seq<seq<string>>, j: nat, x: string)
    requires j < |a|
    ensures Pooled(a[j := a[j] + [x]]) == Pooled(a) + multiset{x}
  {
    var b := a[j := a[j] + [x]];
    var m := |a| - 1;
    if j < m {
      assert b[..m] == a[..m][j := a[j] + [x]];
      AppendOnePooled(a[..m], j, x);
      assert b[m] == a[m];
    } else {
      assert b[..m] == a[..m];
      assert multiset(b[m]) == multiset(a[m]) + multiset{x};
    }
  }

  lemma AppendOneSums(a: seq<seq<string>>, j: nat, x: string)
    requires j < |a|
    ensures SizeSum(a[j := a[j] + [x]]) == SizeSum(a) + 1
    ensures Pooled(a[j := a[j] + [x]]) == Pooled(a) + multiset{x}
  {
    AppendOneSize(a, j, x);
    AppendOnePooled(a, j, x);
  }

  /** Appending query `i` to list `i % n` turns the partition of `qs[..i]` into that of `qs[..i+1]`. */
  lemma RoundRobinStep(qs: seq<string>, n: nat, i: nat)
    requires n > 0 && i < |qs|
    ensures var before := RoundRobin(qs[..i], n);
            RoundRobin(qs[..i + 1], n) == before[i % n := before[i % n] + [qs[i]]]
  {
    var pre := qs[..i + 1];
    assert pre[..i] == qs[..i];
    var before := RoundRobin(qs[..i], n);
    var after := RoundRobin(pre, n);
    forall t | 0 <= t < n
      ensures after[t] == before[i % n := before[i % n] + [qs[i]]][t]
    {
      assert after[t] == ByResidue(qs[..i], n, t) + (if i % n == t then [qs[i]] else []);
    }
  }

  /** The partition of no queries: every thread gets an empty list. */
  function NoQueries(n: nat): (m: seq<seq<string>>)
    ensures |m| == n && SizeSum(m) == 0 && Pooled(m) == multiset{}
    ensures forall t :: 0 <= t < n ==> m[t] == []
  {
    if n == 0 then [] else
      var m := NoQueries(n - 1) + [[]];
      assert m[..n - 1] == NoQueries(n - 1);
      m
  }

  /**
   * Together the lists hold every query exactly once: their sizes add up to the
   * number of queries, and their multiset union is the queries' multiset.
   */
  lemma MultisetSnoc(s: seq<string>)
    requires s != []
    ensures multiset(s) == multiset(s[..|s| - 1]) + multiset{s[|s| - 1]}
  {
    assert s == s[..|s| - 1] + [s[|s| - 1]];
  }

  lemma {:induction false} PartitionIsPermutation(qs: seq<string>, n: nat)
    requires n > 0
    ensures SizeSum(RoundRobin(qs, n)) == |qs|
    ensures Pooled(RoundRobin(qs, n)) == multiset(qs)
  {
    if qs == [] {
      assert RoundRobin(qs, n) == NoQueries(n);
    } else {
      var m := |qs| - 1;
      var before := RoundRobin(qs[..m], n);
      PartitionIsPermutation(qs[..m], n);
      assert RoundRobin(qs, n) == before[m % n := before[m % n] + [qs[m]]] by {
        RoundRobinStep(qs, n, m);
        assert qs[..m + 1] == qs;
      }
      AppendOneSums(before, m % n, qs[m]);
      MultisetSnoc(qs);
    }
  }

  // ---------------------------------------------------------------------------
  // Worker statistics and post-join aggregation
  // ---------------------------------------------------------------------------

  /** `ThreadStats(query_count, total_latency, error_count)` */
  datatype ThreadStats = ThreadStats(value: nat, latency: real, errorCount: nat)

  /** What executing one query did: it committed after `latency` seconds, or raised. */
  datatype QueryOutcome = Succeeded(latency: real) | Failed

  /** What a connected worker records after executing queries with these outcomes. */
  function WorkerStats(outcomes: seq<QueryOutcome>): ThreadStats {
    if outcomes == [] then ThreadStats(0, 0.0, 0)
    else
      var s := WorkerStats(outcomes[..|outcomes| - 1]);
      match outcomes[|outcomes| - 1]
      case Succeeded(l) => ThreadStats(s.value + 1, s.latency + l, s.errorCount)
      case Failed => ThreadStats(s.value, s.latency, s.errorCount + 1)
  }

  function CountSucceeded(outcomes: seq<QueryOutcome>): nat {
    if outcomes == [] then 0
    else CountSucceeded(outcomes[1..]) + (if outcomes[0].Succeeded? then 1 else 0)
  }

  /**
   * A connected worker accounts for every assigned query: the successes it counts
   * plus the failures it counts equal the queries it was given.
   */
  lemma {:induction false} WorkerAccountsForEveryQuery(outcomes: seq<QueryOutcome>)
    ensures WorkerStats(outcomes).value + WorkerStats(outcomes).errorCount == |outcomes|
    ensures WorkerStats(outcomes).value == CountSucceeded(outcomes)
  {
    if outcomes != [] {
      var m := |outcomes| - 1;
      WorkerAccountsForEveryQuery(outcomes[..m]);
      CountSucceededSnoc(outcomes[..m], outcomes[m]);
      assert outcomes[..m] + [outcomes[m]] == outcomes;
    }
  }

  lemma {:induction false} CountSucceededSnoc(os: seq<QueryOutcome>, o: QueryOutcome)
    ensures CountSucceeded(os + [o]) == CountSucceeded(os) + (if o.Succeeded? then 1 else 0)
  {
    if os != [] {
      CountSucceededSnoc(os[1..], o);
      assert (os + [o])[1..] == os[1..] + [o];
    }
  }

  /**
   * A failing query does not stop the worker: the statistics of a run are the
   * sums of the statistics of any split of it, so queries after a failure still
   * count.
   */
  lemma {:induction false} WorkerStatsAdditive(a: seq<QueryOutcome>, b: seq<QueryOutcome>)
    ensures var sa, sb, s := WorkerStats(a), WorkerStats(b), WorkerStats(a + b);
            s == ThreadStats(sa.value + sb.value, sa.latency + sb.latency, sa.errorCount + sb.errorCount)
  {
    if b != [] {
      var m := |b| - 1;
      WorkerStatsAdditive(a, b[..m]);
      assert (a + b)[..|a + b| - 1] == a + b[..m];
    } else {
      assert a + b == a;
    }
  }

  /** The shared `time_stamp` dictionary the workers write to. */
  class TimeStamp {
    var entries: map<int, ThreadStats>

    constructor ()
      ensures entries == map[]
    {
      entries := map[];
    }

    /**
     * `one_thread_given_queries.run` for thread `threadId` and its query list
     * `wg`: a connected worker executes every query, keeps going after a failed
     * one and records its counts; a worker whose connection (or log file) fails
     * records zero counts, but only if no entry for its id exists yet.
     */
    method RunWorker(threadId: int, wg: seq<string>, connected: bool, outcomes: seq<QueryOutcome>)
      requires |outcomes| == |wg|
      modifies this
      ensures connected ==> entries == old(entries)[threadId := WorkerStats(outcomes)]
      ensures !connected && threadId in old(entries) ==> entries == old(entries)
      ensures !connected && threadId !in old(entries) ==> entries == old(entries)[threadId := ThreadStats(0, 0.0, 0)]
    {
      if !connected {
        if threadId !in entries {
          entries := entries[threadId := ThreadStats(0, 0.0, 0)];
        }
        return;
      }
      var queryCount: nat := 0;
      var errorCount: nat := 0;
      var totalLatency: real := 0.0;
      for i := 0 to |wg|
        invariant WorkerStats(outcomes[..i]) == ThreadStats(queryCount, totalLatency, errorCount)
      {
        assert outcomes[..i + 1][..i] == outcomes[..i];
        match outcomes[i]
        case Succeeded(l) =>
          totalLatency := totalLatency + l;
          queryCount := queryCount + 1;
        case Failed =>
          errorCount := errorCount + 1;
      }
      assert outcomes[..|wg|] == outcomes;
      entries := entries[threadId := ThreadStats(queryCount, totalLatency, errorCount)];
    }
  }

  /** The counters `run` accumulates over thread ids `0 .. thread_num-1`. */
  datatype Totals = Totals(queries: nat, latency: real, errors: nat, missingThreads: nat)

  /** `Totals` over thread ids `0 .. k-1`. */
  function TotalsUpTo(ts: map<int, ThreadStats>, k: nat): Totals {
    if k == 0 then Totals(0, 0.0, 0, 0)
    else
      var p := TotalsUpTo(ts, k - 1);
      var i := k - 1;
      if i in ts then Totals(p.queries + ts[i].value, p.latency + ts[i].latency, p.errors + ts[i].errorCount, p.missingThreads)
      else Totals(p.queries, p.latency, p.errors, p.missingThreads + 1)
  }

  /** The dictionary returned by `run`. */
  datatype Metrics = Metrics(avgTimePerQuery: real, throughputQps: real)

  /** Metrics from the totals and the wall-clock time, with the invalidation rule. */
  function MetricsOf(t: Totals, wallTime: real): Metrics {
    if t.errors > 0 || t.missingThreads > 0 then Metrics(LargeInvalidLatency, 0.0)
    else
      Metrics(if t.queries > 0 then t.latency / (t.queries as real) else 0.0,
              if wallTime > 0.0 then (t.queries as real) / wallTime else 0.0)
  }

  /**
   * The post-join part of `multi_thread.run`: sum the statistics of threads
   * `0 .. threadNum-1`, count the ids without an entry, and invalidate the
   * iteration when any query failed or any thread is missing.
   */
  method Aggregate(threadNum: nat, timeStamp: map<int, ThreadStats>, wallTime: real)
    returns (metrics: Metrics, totals: Totals)
    ensures totals == TotalsUpTo(timeStamp, threadNum)
    ensures totals.missingThreads == |set i | 0 <= i < threadNum && i !in timeStamp|
    ensures totals.errors > 0 || totals.missingThreads > 0 ==>
              metrics == Metrics(LargeInvalidLatency, 0.0)
    ensures totals.errors == 0 && totals.missingThreads == 0 && totals.queries == 0 ==>
              metrics.avgTimePerQuery == 0.0
    ensures metrics == MetricsOf(totals, wallTime)
  {
    var totalQueries: nat := 0;
    var totalLatency: real := 0.0;
    var totalErrors: nat := 0;
    var missingThreads: nat := 0;
    for i := 0 to threadNum
      invariant TotalsUpTo(timeStamp, i) == Totals(totalQueries, totalLatency, totalErrors, missingThreads)
    {
      if i in timeStamp {
        totalQueries := totalQueries + timeStamp[i].value;
        totalLatency := totalLatency + timeStamp[i].latency;
        totalErrors := totalErrors + timeStamp[i].errorCount;
      } else {
        missingThreads := missingThreads + 1;
      }
    }
    var throughput := if wallTime > 0.0 then (totalQueries as real) / wallTime else 0.0;
    var avgLatency := if totalQueries > 0 then totalLatency / (totalQueries as real) else 0.0;
    if totalErrors > 0 || missingThreads > 0 {
      throughput := 0.0;
      avgLatency := LargeInvalidLatency;
    }
    metrics := Metrics(avgLatency, throughput);
    totals := Totals(totalQueries, totalLatency, totalErrors, missingThreads);
    MissingCountsAbsentIds(timeStamp, threadNum);
  }

  /** The missing-thread counter is the number of ids without an entry. */
  lemma {:induction false} MissingCountsAbsentIds(ts: map<int, ThreadStats>, k: nat)
    ensures TotalsUpTo(ts, k).missingThreads == |set i | 0 <= i < k && i !in ts|
  {
    if k > 0 {
      MissingCountsAbsentIds(ts, k - 1);
      var before := set i | 0 <= i < k - 1 && i !in ts;
      var after := set i | 0 <= i < k && i !in ts;
      if k - 1 in ts {
        assert after == before;
      } else {
        assert after == before + {k - 1};
      }
    }
  }

  /**
   * An iteration is invalidated when some query failed or some thread left no
   * entry. Otherwise its metrics are the real ones: the summed latency per
   * query (0 when no query ran) and the queries per second of wall-clock time.
   */
  lemma InvalidationRule(ts: map<int, ThreadStats>, n: nat, wallTime: real)
    ensures var t := TotalsUpTo(ts, n);
            var m := MetricsOf(t, wallTime);
            && ((t.errors > 0 || exists i :: 0 <= i < n && i !in ts) ==> m == Metrics(LargeInvalidLatency, 0.0))
            && (t.errors == 0 && (forall i :: 0 <= i < n ==> i in ts) && t.queries == 0 ==> m == Metrics(0.0, 0.0))
            && (t.errors == 0 && (forall i :: 0 <= i < n ==> i in ts) ==>
                  m.avgTimePerQuery == (if t.queries > 0 then t.latency / (t.queries as real) else 0.0)
                  && m.throughputQps == (if wallTime > 0.0 then (t.queries as real) / wallTime else 0.0))
  {
    MissingCountsAbsentIds(ts, n);
    var absent := set i | 0 <= i < n && i !in ts;
    if exists i :: 0 <= i < n && i !in ts {
      var i :| 0 <= i < n && i !in ts;
      assert i in absent;
    }
    if forall i :: 0 <= i < n ==> i in ts {
      assert absent == {};
    }
  }

  /** Totals over threads whose entries are all the zero statistics of a failed connection. */
  lemma {:induction false} ZeroEntriesTotal(ts: map<int, ThreadStats>, k: nat)
    requires forall i :: 0 <= i < k ==> i in ts && ts[i] == ThreadStats(0, 0.0, 0)
    ensures TotalsUpTo(ts, k) == Totals(0, 0.0, 0, 0)
  {
    if k > 0 {
      ZeroEntriesTotal(ts, k - 1);
    }
  }

  /**
   * A worker whose connection fails records zero statistics, which count
   * neither as an error nor as a missing thread: when every connection fails,
   * the iteration is not invalidated and reports a throughput of 0 and an
   * average latency of 0.
   */
  lemma FailedConnectionsLookValid(ts: map<int, ThreadStats>, n: nat, wallTime: real)
    requires forall i :: 0 <= i < n ==> i in ts && ts[i] == ThreadStats(0, 0.0, 0)
    ensures MetricsOf(TotalsUpTo(ts, n), wallTime) == Metrics(0.0, 0.0)
    ensures MetricsOf(TotalsUpTo(ts, n), wallTime) != Metrics(LargeInvalidLatency, 0.0)
  {
    ZeroEntriesTotal(ts, n);
  }

  /**
   * When every thread of a partition ran all of its queries without an error,
   * the aggregated query count is the number of prepared queries and the
   * iteration is not invalidated.
   */
  lemma CleanRunCountsEveryQuery(qs: seq<string>, n: nat, ts: map<int, ThreadStats>)
    requires n > 0
    requires forall t :: 0 <= t < n ==> (t in ts && ts[t].errorCount == 0 && ts[t].value == |RoundRobin(qs, n)[t]|)
    ensures TotalsUpTo(ts, n).queries == |qs|
    ensures TotalsUpTo(ts, n).errors == 0 && TotalsUpTo(ts, n).missingThreads == 0
  {
    PartitionIsPermutation(qs, n);
    CleanTotals(qs, n, ts, n);
    assert RoundRobin(qs, n)[..n] == RoundRobin(qs, n);
  }

  lemma {:induction false} CleanTotals(qs: seq<string>, n: nat, ts: map<int, ThreadStats>, k: nat)
    requires n > 0 && k <= n
    requires forall t :: 0 <= t < n ==> (t in ts && ts[t].errorCount == 0 && ts[t].value == |RoundRobin(qs, n)[t]|)
    ensures TotalsUpTo(ts, k).queries == SizeSum(RoundRobin(qs, n)[..k])
    ensures TotalsUpTo(ts, k).errors == 0 && TotalsUpTo(ts, k).missingThreads == 0
  {
    if k > 0 {
      CleanTotals(qs, n, ts, k - 1);
      assert RoundRobin(qs, n)[..k][..k - 1] == RoundRobin(qs, n)[..k - 1];
    }
  }

  // ---------------------------------------------------------------------------
  // The executor object
  // ---------------------------------------------------------------------------

  /** `multi_thread`: the workload text and the per-thread query lists it builds. */
  class Executor {
    const threadNum: nat
    var wgFile: string
    var sqlListIdx: seq<seq<string>>

    constructor (threadNum: nat)
      ensures this.threadNum == threadNum && wgFile == "" && sqlListIdx == []
    {
      this.threadNum := threadNum;
      wgFile := "";
      sqlListIdx := [];
    }

    /**
     * `data_pre` on the text read from the workload file: split on separator runs,
     * strip each piece and append `;` in place, drop an empty last query, keep at
     * most 3000, then deal the queries out round-robin over the threads.
     */
    method DataPre(text: string)
      requires threadNum >= 1
      modifies this
      ensures wgFile == text
      ensures sqlListIdx == RoundRobin(PreparedQueries(text), threadNum)
    {
      wgFile := text;
      var pieces := SplitOnSeparatorRuns(text);
      var sqlList := new string[|pieces|](i requires 0 <= i < |pieces| => pieces[i]);
      assert sqlList[..] == pieces;
      TerminateAll(sqlList);
      var qs := sqlList[..];
      ghost var terminated := Terminated(pieces);
      assert qs == terminated;
      if qs[|qs| - 1] == ";" {
        qs := qs[..|qs| - 1];
      }
      assert qs == DropEmptyLast(terminated);
      if |qs| > MaxQueries {
        qs := qs[..MaxQueries];
      }
      assert qs == QueriesOfPieces(pieces);
      sqlListIdx := Deal(qs, threadNum);
    }
  }

  /** `sql_list[i] = sql_list[i].strip() + ";"` for every index, in place. */
  method TerminateAll(sqlList: array<string>)
    modifies sqlList
    ensures sqlList[..] == Terminated(old(sqlList[..]))
  {
    ghost var pieces := sqlList[..];
    for i := 0 to sqlList.Length
      invariant forall k :: 0 <= k < i ==> sqlList[k] == Strip(pieces[k]) + ";"
      invariant forall k :: i <= k < sqlList.Length ==> sqlList[k] == pieces[k]
    {
      sqlList[i] := Strip(sqlList[i]) + ";";
    }
    assert sqlList[..] == Terminated(pieces);
  }

  /** The dealing loop: query `i` is appended to the list of thread `i % n`. */
  method Deal(qs: seq<string>, n: nat) returns (m: seq<seq<string>>)
    requires n > 0
    ensures m == RoundRobin(qs, n)
  {
    m := NoQueries(n);
    assert m == RoundRobin(qs[..0], n);
    for i := 0 to |qs|
      invariant m == RoundRobin(qs[..i], n)
    {
      RoundRobinStep(qs, n, i);
      m := m[i % n := m[i % n] + [qs[i]]];
    }
    assert qs[..|qs|] == qs;
  }
}
