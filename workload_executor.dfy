/**
 * `workload_executor.py`: loading the queries of a `.wg` file, the OLAP/OLTP
 * dispatch of `run_config`, the guards and counting of `_run_olap` and
 * `_run_oltp`, and the choice of the TPS figure among BenchBase result files.
 * The database, the clock, the BenchBase process and the file system are not
 * modelled: query outcomes, elapsed times, the result-directory listing and the
 * parsed contents of its files are parameters.
 */
module WorkloadExecutor {
  import opened Wrappers
  import opened Text
  import opened Paths
  import opened Json

  // ---------------------------------------------------------------------------
  // `_load_wg_queries` and `_count_olap_queries`
  // ---------------------------------------------------------------------------

  /** A stripped line that is kept as a query: not blank and not a `--` comment. */
  predicate IsQueryLine(s: string) {
    s != [] && !StartsWith(s, "--")
  }

  /** The queries of a `.wg` file with these lines: each line stripped, blanks and comments dropped. */
  function KeptLines(lines: seq<string>): seq<string> {
    if lines == [] then []
    else
      var n := |lines| - 1;
      var s := Strip(lines[n]);
      if IsQueryLine(s) then KeptLines(lines[..n]) + [s] else KeptLines(lines[..n])
  }

  /**
   * Every query is a stripped, non-empty line that does not start with `--`,
   * with any `;` left in place; there are no more queries than lines.
   */
  lemma {:induction false} KeptLinesShape(lines: seq<string>)
    ensures var qs := KeptLines(lines);
            && |qs| <= |lines|
            && forall k :: 0 <= k < |qs| ==> IsQueryLine(qs[k]) && Strip(qs[k]) == qs[k]
  {
    if lines != [] {
      var n := |lines| - 1;
      var s := Strip(lines[n]);
      var before := KeptLines(lines[..n]);
      KeptLinesShape(lines[..n]);
      if IsQueryLine(s) {
        StripIdempotent(lines[n]);
        var qs := before + [s];
        assert KeptLines(lines) == qs;
        forall k | 0 <= k < |qs| ensures IsQueryLine(qs[k]) && Strip(qs[k]) == qs[k] {
          if k < |before| { assert qs[k] == before[k]; }
        }
      }
    }
  }

  /** Lines that are queries after stripping are all kept, in their order. */
  lemma {:induction false} KeptLinesOfQueries(lines: seq<string>)
    requires forall k :: 0 <= k < |lines| ==> IsQueryLine(Strip(lines[k]))
    ensures |KeptLines(lines)| == |lines|
    ensures forall k :: 0 <= k < |lines| ==> KeptLines(lines)[k] == Strip(lines[k])
  {
    if lines != [] {
      var n := |lines| - 1;
      KeptLinesOfQueries(lines[..n]);
      assert IsQueryLine(Strip(lines[n]));
      var qs := KeptLines(lines[..n]) + [Strip(lines[n])];
      assert KeptLines(lines) == qs;
      forall k | 0 <= k < |lines| ensures qs[k] == Strip(lines[k]) {
        if k < n { assert lines[..n][k] == lines[k]; }
      }
    }
  }

  /** A single line yields its stripped text when that is a query, and nothing otherwise. */
  lemma KeptLinesOne(line: string)
    ensures KeptLines([line]) == if IsQueryLine(Strip(line)) then [Strip(line)] else []
  {
    assert [line][..0] == [];
  }

  /**
   * The queries of two runs of lines are the queries of the first followed by
   * those of the second: with `KeptLinesOne`, every query line is kept, in the
   * order of the file, and nothing else is.
   */
  lemma {:induction false} KeptLinesAppend(a: seq<string>, b: seq<string>)
    ensures KeptLines(a + b) == KeptLines(a) + KeptLines(b)
  {
    if b == [] {
      assert a + b == a;
    } else {
      var n := |b| - 1;
      assert (a + b)[..|a + b| - 1] == a + b[..n];
      assert (a + b)[|a + b| - 1] == b[n];
      KeptLinesAppend(a, b[..n]);
    }
  }

  /** `_load_wg_queries` on the lines of an opened file. */
  method LoadWgQueries(lines: seq<string>) returns (queries: seq<string>)
    ensures queries == KeptLines(lines)
  {
    queries := [];
    for i := 0 to |lines|
      invariant queries == KeptLines(lines[..i])
    {
      var s := Strip(lines[i]);
      assert lines[..i + 1][..i] == lines[..i];
      if !IsQueryLine(s) {
        continue;
      }
      queries := queries + [s];
    }
    assert lines[..|lines|] == lines;
  }

  /**
   * `_count_olap_queries`: the number of queries loaded from the file, or 0 when
   * it cannot be opened (`file` is `None`).
   */
  function CountOlapQueries(file: Option<seq<string>>): (r: nat)
    ensures file.None? ==> r == 0
    ensures file.Some? ==> r == |KeptLines(file.value)| && r <= |file.value|
  {
    match file
    case None => 0
    case Some(lines) =>
      KeptLinesShape(lines);
      |KeptLines(lines)|
  }

  // ---------------------------------------------------------------------------
  // `run_config`
  // ---------------------------------------------------------------------------

  datatype Route = Olap | Oltp

  /** The benchmarks run as OLAP query files; everything else goes to BenchBase. */
  const OlapBenchmarks: set<string> := {"tpch", "job", "olap", "dwg"}

  /** `args['benchmark_config'].get('benchmark', '').lower()` selects the route. */
  function Dispatch(benchmark: Option<string>): Route {
    if Lower(benchmark.GetOr("")) in OlapBenchmarks then Olap else Oltp
  }

  /** What `run_config` does: whether it calls `change_knob`, and which runner it calls. */
  datatype RunConfigSteps = RunConfigSteps(changeKnob: bool, route: Route)

  /**
   * `run_config(config, workload_file)`: knobs are applied only for a non-empty
   * configuration; whether applying them succeeded (`applyOk`) changes nothing
   * afterwards.
   */
  function RunConfig(config: Option<seq<(string, Json)>>, benchmark: Option<string>, applyOk: bool): RunConfigSteps {
    RunConfigSteps(config.Some? && config.value != [], Dispatch(benchmark))
  }

  lemma LowerIdempotent(s: string)
    ensures Lower(Lower(s)) == Lower(s)
  {
  }

  /**
   * The route is OLAP exactly for `tpch`, `job`, `olap` and `dwg` in any letter
   * case, and knobs are applied exactly when the configuration is non-empty.
   * The outcome of the knob change is only logged, so `t == f` holds by
   * construction: it records that a failed change leaves the run as it is.
   */
  lemma DispatchRule(config: Option<seq<(string, Json)>>, benchmark: Option<string>)
    ensures var t, f := RunConfig(config, benchmark, true), RunConfig(config, benchmark, false);
            && t == f
            && (t.route == Olap <==> Lower(benchmark.GetOr("")) in {"tpch", "job", "olap", "dwg"})
            && (t.changeKnob <==> config.Some? && config.value != [])
    ensures benchmark.Some? ==> Dispatch(Some(Lower(benchmark.value))) == Dispatch(benchmark)
    ensures Dispatch(None) == Oltp
  {
    if benchmark.Some? { LowerIdempotent(benchmark.value); }
    assert Lower("") == "";
  }

  // ---------------------------------------------------------------------------
  // `_run_olap`
  // ---------------------------------------------------------------------------

  /** The shortest elapsed time `_run_olap` divides by. */
  const MinElapsed: real := 0.000001

  function CountTrue(bs: seq<bool>): (r: nat)
    ensures r <= |bs|
  {
    if bs == [] then 0 else CountTrue(bs[..|bs| - 1]) + (if bs[|bs| - 1] then 1 else 0)
  }

  /** The exception `_run_olap` lets through: `open` fails on the workload file. */
  datatype OlapError = CannotOpenWorkload

  /**
   * `_run_olap` on the workload file (`None` when it cannot be opened, which
   * `_load_wg_queries` does not catch): 0.0 when there is no query; otherwise
   * every query is tried, a failing one is skipped, and the result is the
   * number executed divided by the elapsed time (at least `1e-6`).
   * `succeeds[k]` says whether query `k` executes; `measured` is the clock
   * difference.
   */
  method RunOlap(file: Option<seq<string>>, succeeds: seq<bool>, measured: real) returns (r: Result<real, OlapError>)
    requires file.Some? ==> |succeeds| == |KeptLines(file.value)|
    ensures file.None? ==> r == Err(CannotOpenWorkload)
    ensures file.Some? && KeptLines(file.value) == [] ==> r == Ok(0.0)
    ensures file.Some? && KeptLines(file.value) != [] ==>
              r == Ok((CountTrue(succeeds) as real) / (if measured > MinElapsed then measured else MinElapsed))
  {
    if file.None? {
      return Err(CannotOpenWorkload);
    }
    var queries := LoadWgQueries(file.value);
    if queries == [] {
      return Ok(0.0);
    }
    var executed: nat := 0;
    for i := 0 to |queries|
      invariant executed == CountTrue(succeeds[..i])
    {
      assert succeeds[..i + 1][..i] == succeeds[..i];
      if succeeds[i] {
        executed := executed + 1;
      }
    }
    assert succeeds[..|queries|] == succeeds;
    var elapsed := if measured > MinElapsed then measured else MinElapsed;
    r := Ok((executed as real) / elapsed);
  }

  lemma DivMonotone(a: real, b: real, c: real)
    requires 0.0 <= a <= b && c > 0.0
    ensures 0.0 <= a / c <= b / c
  {
    assert b / c - a / c == (b - a) / c;
    assert (b - a) / c >= 0.0 by { assert (b - a) / c * c == b - a; }
    assert a / c >= 0.0 by { assert a / c * c == a; }
  }

  /** The OLAP rate is never negative and never above the number of queries per elapsed second. */
  lemma OlapRateBounds(succeeds: seq<bool>, elapsed: real)
    requires elapsed >= MinElapsed
    ensures 0.0 <= (CountTrue(succeeds) as real) / elapsed <= (|succeeds| as real) / elapsed
  {
    DivMonotone(CountTrue(succeeds) as real, |succeeds| as real, elapsed);
  }

  // ---------------------------------------------------------------------------
  // `_run_oltp`
  // ---------------------------------------------------------------------------

  /** A value that Python treats as true: present and non-empty. */
  predicate Given(v: Option<string>) {
    v.Some? && v.value != ""
  }

  /** `os.environ.get("BENCHBASE_HOME") or benchmark_config.get('benchbase_home')` */
  function BenchbaseHome(env: Option<string>, configured: Option<string>): Option<string> {
    if Given(env) then env else configured
  }

  /** `workload_file` when it ends in `.xml`, else `benchmark_config.get('config_path')`. */
  function Profile(workloadFile: string, configPath: Option<string>): Option<string> {
    if EndsWith(workloadFile, ".xml") then Some(workloadFile) else configPath
  }

  /**
   * The BenchBase command line `_run_oltp` builds, or `None` when it returns 0.0
   * before running anything: no BenchBase home, or a profile that is missing or
   * not among the `existing` paths.
   */
  function OltpCommand(env: Option<string>, configured: Option<string>, benchmark: Option<string>,
                       workloadFile: string, configPath: Option<string>, existing: set<string>,
                       resultsDir: string): Option<seq<string>>
  {
    var home := BenchbaseHome(env, configured);
    var profile := Profile(workloadFile, configPath);
    if !Given(home) then None
    else if !Given(profile) || profile.value !in existing then None
    else Some([Join(home.value, "benchbase"), "-b", benchmark.GetOr("tpcc"), "-c", profile.value,
               "--execute=true", "--results", resultsDir])
  }

  /**
   * BenchBase runs only with a home and an existing profile; the environment
   * variable wins over the configured home whenever it is set and non-empty; the
   * profile is the workload file exactly when that file name ends in `.xml`; the
   * benchmark defaults to `tpcc`.
   */
  lemma OltpGuards(env: Option<string>, configured: Option<string>, benchmark: Option<string>,
                   workloadFile: string, configPath: Option<string>, existing: set<string>, resultsDir: string)
    ensures var cmd := OltpCommand(env, configured, benchmark, workloadFile, configPath, existing, resultsDir);
            && (cmd.Some? <==> (Given(env) || Given(configured))
                               && Given(Profile(workloadFile, configPath))
                               && Profile(workloadFile, configPath).value in existing)
            && (cmd.Some? && Given(env) ==> cmd.value[0] == Join(env.value, "benchbase"))
            && (cmd.Some? && !Given(env) ==> cmd.value[0] == Join(configured.value, "benchbase"))
            && (cmd.Some? ==> (cmd.value[4] == workloadFile <== EndsWith(workloadFile, ".xml")))
            && (cmd.Some? && !EndsWith(workloadFile, ".xml") ==> cmd.value[4] == configPath.value)
            && (cmd.Some? ==> cmd.value[2] == (if benchmark.Some? then benchmark.value else "tpcc"))
  {
  }

  /**
   * `_run_oltp`: 0.0 when no command is built or BenchBase fails to start
   * (`started` is false); otherwise the TPS parsed from the results directory,
   * whatever BenchBase's return code. `listing` is what the results directory
   * holds afterwards, `None` when it cannot be listed.
   */
  function RunOltp(env: Option<string>, configured: Option<string>, benchmark: Option<string>,
                   workloadFile: string, configPath: Option<string>, existing: set<string>, resultsDir: string,
                   started: bool, returnCode: int, listing: Option<seq<ResultFile>>): real
  {
    var cmd := OltpCommand(env, configured, benchmark, workloadFile, configPath, existing, resultsDir);
    if cmd.None? || !started then 0.0
    else if listing.None? then 0.0
    else FirstTps(resultsDir, NewestFirst(listing.value))
  }

  /**
   * BenchBase's return code does not change the result, and without a home or
   * an existing profile the result is 0.0 whatever the results directory holds.
   */
  lemma OltpOutcome(env: Option<string>, configured: Option<string>, benchmark: Option<string>,
                    workloadFile: string, configPath: Option<string>, existing: set<string>, resultsDir: string,
                    started: bool, rc1: int, rc2: int, listing: Option<seq<ResultFile>>)
    ensures RunOltp(env, configured, benchmark, workloadFile, configPath, existing, resultsDir, started, rc1, listing)
         == RunOltp(env, configured, benchmark, workloadFile, configPath, existing, resultsDir, started, rc2, listing)
    ensures !(Given(env) || Given(configured)) || !Given(Profile(workloadFile, configPath))
            || Profile(workloadFile, configPath).value !in existing || !started ==>
              RunOltp(env, configured, benchmark, workloadFile, configPath, existing, resultsDir, started, rc1, listing) == 0.0
  {
    OltpGuards(env, configured, benchmark, workloadFile, configPath, existing, resultsDir);
  }

  // ---------------------------------------------------------------------------
  // `_parse_benchbase_tps`
  // ---------------------------------------------------------------------------

  /** The keys tried, in this order, for the throughput figure. */
  const TpsKeys: seq<string> := ["Throughput(req/sec)", "Throughput (req/sec)", "TPS", "tps"]

  /** The value of the first key in `keys` whose value is a number. */
  function FirstNumeric(members: seq<(string, Json)>, keys: seq<string>): (r: Option<real>)
    ensures r.None? <==> forall j :: 0 <= j < |keys| ==> AsNumber(Get(members, keys[j])).None?
    ensures r.Some? ==> exists j :: 0 <= j < |keys| && AsNumber(Get(members, keys[j])) == r
                                    && forall i :: 0 <= i < j ==> AsNumber(Get(members, keys[i])).None?
  {
    if keys == [] then None
    else
      var v := AsNumber(Get(members, keys[0]));
      if v.Some? then v
      else
        var r := FirstNumeric(members, keys[1..]);
        assert forall j :: 0 < j < |keys| ==> keys[1..][j - 1] == keys[j];
        if r.Some? then
          ghost var j :| 0 <= j < |keys[1..]| && AsNumber(Get(members, keys[1..][j])) == r
                         && forall i :: 0 <= i < j ==> AsNumber(Get(members, keys[1..][i])).None?;
          assert AsNumber(Get(members, keys[j + 1])) == r;
          r
        else r
  }

  /** The numeric member values, in order (`candidates`). */
  function Candidates(members: seq<(string, Json)>): (r: seq<real>)
    ensures forall x :: x in r <==> exists k :: 0 <= k < |members| && AsNumber(Some(members[k].1)) == Some(x)
  {
    if members == [] then []
    else
      var rest := Candidates(members[1..]);
      assert forall k :: 0 < k < |members| ==> members[1..][k - 1] == members[k];
      var v := AsNumber(Some(members[0].1));
      if v.Some? then [v.value] + rest else rest
  }

  /** `max(candidates)` */
  function MaxOf(xs: seq<real>): (r: real)
    requires xs != []
    ensures r in xs && forall x :: x in xs ==> x <= r
  {
    if |xs| == 1 then xs[0]
    else
      var m := MaxOf(xs[1..]);
      assert forall x :: x in xs ==> x == xs[0] || x in xs[1..];
      if xs[0] >= m then xs[0] else m
  }

  /**
   * What one parsed result file yields, or `None` to go on with the next file:
   * `metrics` is the `"metrics"` member when it is truthy and the whole object
   * otherwise; its first numeric value among the throughput keys wins, else its
   * largest numeric value. A document or `metrics` that is not an object makes
   * `.get` raise, which moves on to the next file as well.
   */
  function TpsOfData(data: Json): Option<real> {
    if !data.JObject? then None
    else
      var m := if Truthy(Get(data.members, "metrics")) then Get(data.members, "metrics").value else data;
      if !m.JObject? then None
      else
        var first := FirstNumeric(m.members, TpsKeys);
        if first.Some? then first
        else
          var cs := Candidates(m.members);
          if cs == [] then None else Some(MaxOf(cs))
  }

  /** A file of the results directory: its name, modification time and parsed content (`None` when unreadable). */
  datatype ResultFile = ResultFile(name: string, mtime: int, content: Option<Json>)

  /** Insert `f` ahead of the first file that is not newer than it. */
  function InsertNewestFirst(f: ResultFile, s: seq<ResultFile>): (r: seq<ResultFile>)
    ensures multiset(r) == multiset(s) + multiset{f}
  {
    if s == [] then [f]
    else if s[0].mtime <= f.mtime then [f] + s
    else
      assert s == [s[0]] + s[1..];
      [s[0]] + InsertNewestFirst(f, s[1..])
  }

  /**
   * `sorted(files, key=getmtime, reverse=True)`: newest first, and files with
   * equal times keep their listing order, since `reverse` keeps the sort stable.
   */
  function NewestFirst(files: seq<ResultFile>): (r: seq<ResultFile>)
    ensures multiset(r) == multiset(files)
  {
    if files == [] then []
    else
      assert files == [files[0]] + files[1..];
      InsertNewestFirst(files[0], NewestFirst(files[1..]))
  }

  predicate ByNewest(s: seq<ResultFile>) {
    forall i, j :: 0 <= i < j < |s| ==> s[i].mtime >= s[j].mtime
  }

  /** No file of `s` is newer than `m`. */
  predicate NotNewerThan(m: int, s: seq<ResultFile>) {
    forall k :: 0 <= k < |s| ==> s[k].mtime <= m
  }

  lemma {:induction false} InsertKeepsNotNewer(m: int, f: ResultFile, s: seq<ResultFile>)
    requires NotNewerThan(m, s) && f.mtime <= m
    ensures NotNewerThan(m, InsertNewestFirst(f, s))
  {
    if s != [] && s[0].mtime > f.mtime {
      var t := InsertNewestFirst(f, s[1..]);
      InsertKeepsNotNewer(m, f, s[1..]);
      var r := [s[0]] + t;
      forall k | 0 <= k < |r| ensures r[k].mtime <= m {
        if k > 0 { assert r[k] == t[k - 1]; }
      }
    }
  }

  lemma {:induction false} InsertNewestFirstOrdered(f: ResultFile, s: seq<ResultFile>)
    requires ByNewest(s)
    ensures ByNewest(InsertNewestFirst(f, s))
  {
    if s == [] {
    } else if s[0].mtime <= f.mtime {
      var r := [f] + s;
      forall i, j | 0 <= i < j < |r| ensures r[i].mtime >= r[j].mtime {
        assert r[j] == s[j - 1];
        if i > 0 { assert r[i] == s[i - 1]; } else if j > 1 { assert s[0].mtime >= s[j - 1].mtime; }
      }
    } else {
      var t := InsertNewestFirst(f, s[1..]);
      InsertNewestFirstOrdered(f, s[1..]);
      assert NotNewerThan(s[0].mtime, s[1..]) by {
        forall k | 0 <= k < |s[1..]| ensures s[1..][k].mtime <= s[0].mtime {
          assert s[1..][k] == s[k + 1];
        }
      }
      InsertKeepsNotNewer(s[0].mtime, f, s[1..]);
      var r := [s[0]] + t;
      assert InsertNewestFirst(f, s) == r;
      forall i, j | 0 <= i < j < |r| ensures r[i].mtime >= r[j].mtime {
        assert r[j] == t[j - 1];
        if i > 0 { assert r[i] == t[i - 1]; }
      }
    }
  }

  /** The files are visited newest first, and none is lost or added. */
  lemma {:induction false} NewestFirstOrdered(files: seq<ResultFile>)
    ensures ByNewest(NewestFirst(files))
  {
    if files != [] {
      NewestFirstOrdered(files[1..]);
      InsertNewestFirstOrdered(files[0], NewestFirst(files[1..]));
    }
  }

  /** The files of `s` modified at time `t`, in order. */
  function WithTime(s: seq<ResultFile>, t: int): seq<ResultFile> {
    if s == [] then [] else (if s[0].mtime == t then [s[0]] else []) + WithTime(s[1..], t)
  }

  lemma WithTimeCons(x: ResultFile, s: seq<ResultFile>, t: int)
    ensures WithTime([x] + s, t) == (if x.mtime == t then [x] else []) + WithTime(s, t)
  {
    assert ([x] + s)[0] == x && ([x] + s)[1..] == s;
  }

  lemma {:induction false} InsertNewestFirstStable(f: ResultFile, s: seq<ResultFile>, t: int)
    ensures WithTime(InsertNewestFirst(f, s), t) == (if f.mtime == t then [f] else []) + WithTime(s, t)
  {
    if s == [] {
      WithTimeCons(f, [], t);
    } else if s[0].mtime <= f.mtime {
      WithTimeCons(f, s, t);
    } else {
      var rest := InsertNewestFirst(f, s[1..]);
      InsertNewestFirstStable(f, s[1..], t);
      WithTimeCons(s[0], rest, t);
      WithTimeCons(s[0], s[1..], t);
      assert [s[0]] + s[1..] == s;
      // `f` and `s[0]` have different times here, so at most one of them is kept.
      var fp := if f.mtime == t then [f] else [];
      var sp := if s[0].mtime == t then [s[0]] else [];
      var w := WithTime(s[1..], t);
      if sp == [] {
        assert sp + (fp + w) == fp + w;
      } else {
        assert fp == [];
        assert fp + (sp + w) == sp + w;
      }
    }
  }

  /**
   * The sort is stable: the files modified at any one time come out in the
   * order they were listed, so among equally recent results the one listed
   * first is read first.
   */
  lemma {:induction false} NewestFirstStable(files: seq<ResultFile>, t: int)
    ensures WithTime(NewestFirst(files), t) == WithTime(files, t)
  {
    if files != [] {
      NewestFirstStable(files[1..], t);
      InsertNewestFirstStable(files[0], NewestFirst(files[1..]), t);
    }
  }

  /** What file `f` yields when it is reached: only `.json` paths that parse are looked into. */
  function FileTps(resultsDir: string, f: ResultFile): Option<real> {
    if EndsWith(Join(resultsDir, f.name), ".json") && f.content.Some? then TpsOfData(f.content.value) else None
  }

  /** What each file yields, in visiting order. */
  function Hits(resultsDir: string, files: seq<ResultFile>): seq<Option<real>> {
    seq(|files|, k requires 0 <= k < |files| => FileTps(resultsDir, files[k]))
  }

  /** The first value among `hits`, else 0.0. */
  function FirstHit(hits: seq<Option<real>>): real {
    if hits == [] then 0.0
    else if hits[0].Some? then hits[0].value
    else FirstHit(hits[1..])
  }

  /** The value of the first file that yields one, else 0.0. */
  function FirstTps(resultsDir: string, files: seq<ResultFile>): real {
    FirstHit(Hits(resultsDir, files))
  }

  /** None of the first `k` hits holds a value. */
  predicate NoneBefore(hits: seq<Option<real>>, k: nat)
    requires k <= |hits|
  {
    forall j :: 0 <= j < k ==> hits[j].None?
  }

  lemma {:induction false} FirstHitIsFirst(hits: seq<Option<real>>)
    ensures NoneBefore(hits, |hits|) ==> FirstHit(hits) == 0.0
    ensures forall k :: 0 <= k < |hits| && hits[k].Some? && NoneBefore(hits, k) ==> FirstHit(hits) == hits[k].value
  {
    if hits != [] {
      var rest := hits[1..];
      FirstHitIsFirst(rest);
      if hits[0].None? {
        if NoneBefore(hits, |hits|) {
          forall j | 0 <= j < |rest| ensures rest[j].None? { assert rest[j] == hits[j + 1]; }
        }
        forall k | 0 <= k < |hits| && hits[k].Some? && NoneBefore(hits, k) ensures FirstHit(hits) == hits[k].value {
          assert rest[k - 1] == hits[k];
          forall j | 0 <= j < k - 1 ensures rest[j].None? { assert rest[j] == hits[j + 1]; }
        }
      } else {
        forall k | 0 <= k < |hits| && hits[k].Some? && NoneBefore(hits, k) ensures FirstHit(hits) == hits[k].value {
          assert k == 0;
        }
      }
    }
  }

  /**
   * The TPS is the value of the first file, in visiting order, that yields one,
   * and 0.0 when none does.
   */
  lemma FirstTpsIsFirstHit(resultsDir: string, files: seq<ResultFile>)
    ensures (forall k :: 0 <= k < |files| ==> FileTps(resultsDir, files[k]).None?) ==> FirstTps(resultsDir, files) == 0.0
    ensures forall k :: 0 <= k < |files| && FileTps(resultsDir, files[k]).Some?
                        && (forall j :: 0 <= j < k ==> FileTps(resultsDir, files[j]).None?)
                        ==> FirstTps(resultsDir, files) == FileTps(resultsDir, files[k]).value
  {
    var hits := Hits(resultsDir, files);
    assert |hits| == |files| && forall k :: 0 <= k < |files| ==> hits[k] == FileTps(resultsDir, files[k]);
    FirstHitIsFirst(hits);
    if forall k :: 0 <= k < |files| ==> FileTps(resultsDir, files[k]).None? {
      assert NoneBefore(hits, |hits|);
    }
    forall k | 0 <= k < |files| && FileTps(resultsDir, files[k]).Some?
                 && (forall j :: 0 <= j < k ==> FileTps(resultsDir, files[j]).None?)
      ensures FirstTps(resultsDir, files) == FileTps(resultsDir, files[k]).value
    {
      assert NoneBefore(hits, k);
    }
  }

  /**
   * Within one file: `metrics` is the `"metrics"` member when that is truthy and
   * the whole object otherwise. A truthy `metrics` that is not an object yields
   * nothing (its `.get` raises). Otherwise the first throughput key of
   * `metrics` with a numeric value wins, without one the largest numeric value
   * of `metrics` is taken, and without any numeric value the file yields nothing.
   */
  lemma TpsOfObject(members: seq<(string, Json)>)
    ensures var metrics := Get(members, "metrics");
            var r := TpsOfData(JObject(members));
            && (Truthy(metrics) && !metrics.value.JObject? ==> r.None?)
            && (!Truthy(metrics) || metrics.value.JObject? ==>
                  var ms := if Truthy(metrics) then metrics.value.members else members;
                  && (FirstNumeric(ms, TpsKeys).Some? ==> r == FirstNumeric(ms, TpsKeys))
                  && (FirstNumeric(ms, TpsKeys).None? && Candidates(ms) != [] ==>
                        r.Some? && r.value in Candidates(ms)
                        && forall x :: x in Candidates(ms) ==> x <= r.value)
                  && (FirstNumeric(ms, TpsKeys).None? && Candidates(ms) == [] ==> r.None?))
  {
  }

  /**
   * `_parse_benchbase_tps(results_dir)`: `listing` is the directory listing, or
   * `None` when it cannot be read (the result is then 0.0).
   */
  method ParseBenchbaseTps(resultsDir: string, listing: Option<seq<ResultFile>>) returns (tps: real)
    ensures listing.None? ==> tps == 0.0
    ensures listing.Some? ==> tps == FirstTps(resultsDir, NewestFirst(listing.value))
  {
    if listing.None? {
      return 0.0;
    }
    var files := NewestFirst(listing.value);
    ghost var hits := Hits(resultsDir, files);
    for i := 0 to |files|
      invariant FirstTps(resultsDir, files) == FirstHit(hits[i..])
    {
      assert hits[i..][1..] == hits[i + 1..];
      assert hits[i..][0] == FileTps(resultsDir, files[i]);
      var f := files[i];
      if EndsWith(Join(resultsDir, f.name), ".json") {
        if f.content.Some? {
          var v := TpsOfData(f.content.value);
          if v.Some? {
            return v.value;
          }
        }
      }
    }
    return 0.0;
  }
}
