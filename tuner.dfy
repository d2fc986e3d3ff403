/**
 * The deterministic helpers of `tuner.py`: the sign rule of the SMAC
 * objective, the hyperparameter bounds built from the knob definitions, the
 * save identifier of a workload, the internal-metrics file path of
 * `default_run`, and the run budget. SMAC, ConfigSpace and the database are
 * not modelled.
 */
module Tuner {
  import opened Wrappers
  import opened Text
  import opened Paths

  // ---------------------------------------------------------------------------
  // `objective_function`
  // ---------------------------------------------------------------------------

  /** `-perf if perf > 0 else perf`: SMAC minimises, so a higher positive performance is a lower cost. */
  function Objective(perf: real): (r: real)
    ensures r <= 0.0
    ensures perf > 0.0 ==> r == -perf
    ensures perf <= 0.0 ==> r == perf
  {
    if perf > 0.0 then -perf else perf
  }

  /**
   * Among positive performances a better one always has a lower cost. A
   * non-positive performance `p` costs `p` itself, so against a positive `q`
   * (cost `-q`) it costs no more exactly when `p <= -q`.
   */
  lemma ObjectiveOrder(p: real, q: real)
    ensures 0.0 < q < p ==> Objective(p) < Objective(q)
    ensures p <= 0.0 < q ==> Objective(q) < 0.0 && (Objective(p) <= Objective(q) <==> p <= -q)
  {
  }

  // ---------------------------------------------------------------------------
  // The configuration space
  // ---------------------------------------------------------------------------

  /** A knob definition: `detail['type']`, `min`, `max` and `default`. */
  datatype KnobDetail = KnobDetail(kind: string, min: real, max: real, default: real)

  /** A hyperparameter added to the configuration space. */
  datatype Hyperparameter =
    | UniformInteger(name: string, lower: real, upper: real, default: real)
    | UniformFloat(name: string, lower: real, upper: real, default: real)

  /** The hyperparameter built for one knob, or `None` when its type is skipped. */
  function HyperparameterOf(name: string, d: KnobDetail): Option<Hyperparameter> {
    if d.kind == "integer" then
      Some(UniformInteger(name, d.min, if d.max != d.min then d.max else d.min + 1.0, d.default))
    else if d.kind == "float" then Some(UniformFloat(name, d.min, d.max, d.default))
    else None
  }

  /**
   * The bound rule: an integer knob gets `[min, max]`, widened to
   * `[min, min + 1]` when `max == min`, so its range is never a single point;
   * a float knob keeps `[min, max]`; any other type (`enum`, `real`, …) is
   * skipped.
   */
  lemma BoundRule(name: string, d: KnobDetail)
    ensures var h := HyperparameterOf(name, d);
            && (h.Some? <==> d.kind == "integer" || d.kind == "float")
            && (h.Some? ==> h.value.name == name && h.value.lower == d.min && h.value.default == d.default)
            && (d.kind == "integer" ==> h.value.UniformInteger? && h.value.upper != h.value.lower
                                        && (d.min <= d.max ==> h.value.lower < h.value.upper)
                                        && (d.max != d.min ==> h.value.upper == d.max))
            && (d.kind == "float" ==> h.value.UniformFloat? && h.value.upper == d.max)
  {
  }

  /** The hyperparameters of the knobs, in the knobs' order. */
  function SpaceOf(knobs: seq<(string, KnobDetail)>): seq<Hyperparameter> {
    if knobs == [] then []
    else
      var n := |knobs| - 1;
      var h := HyperparameterOf(knobs[n].0, knobs[n].1);
      SpaceOf(knobs[..n]) + (if h.Some? then [h.value] else [])
  }

  /** The loop over `knobs_detail.items()` that fills the configuration space. */
  method BuildSpace(knobs: seq<(string, KnobDetail)>) returns (space: seq<Hyperparameter>)
    ensures space == SpaceOf(knobs)
  {
    space := [];
    for i := 0 to |knobs|
      invariant space == SpaceOf(knobs[..i])
    {
      assert knobs[..i + 1][..i] == knobs[..i];
      var (name, detail) := knobs[i];
      var hp: Hyperparameter;
      if detail.kind == "integer" {
        var maxV := if detail.max != detail.min then detail.max else detail.min + 1.0;
        hp := UniformInteger(name, detail.min, maxV, detail.default);
      } else if detail.kind == "float" {
        hp := UniformFloat(name, detail.min, detail.max, detail.default);
      } else {
        continue;
      }
      space := space + [hp];
    }
    assert knobs[..|knobs|] == knobs;
  }

  /**
   * Every hyperparameter comes from a knob of integer or float type, and every
   * such knob contributes its hyperparameter; no knob contributes two.
   */
  lemma {:induction false} SpaceOfKnobs(knobs: seq<(string, KnobDetail)>)
    ensures |SpaceOf(knobs)| <= |knobs|
    ensures forall h :: h in SpaceOf(knobs) ==>
              exists i :: 0 <= i < |knobs| && HyperparameterOf(knobs[i].0, knobs[i].1) == Some(h)
    ensures forall i :: 0 <= i < |knobs| && (knobs[i].1.kind == "integer" || knobs[i].1.kind == "float") ==>
              HyperparameterOf(knobs[i].0, knobs[i].1).value in SpaceOf(knobs)
  {
    if knobs != [] {
      var n := |knobs| - 1;
      var before := knobs[..n];
      SpaceOfKnobs(before);
      var h := HyperparameterOf(knobs[n].0, knobs[n].1);
      var s := SpaceOf(knobs);
      assert s == SpaceOf(before) + (if h.Some? then [h.value] else []);
      forall x | x in s ensures exists i :: 0 <= i < |knobs| && HyperparameterOf(knobs[i].0, knobs[i].1) == Some(x) {
        if x in SpaceOf(before) {
          var i :| 0 <= i < |before| && HyperparameterOf(before[i].0, before[i].1) == Some(x);
          assert before[i] == knobs[i];
        } else {
          assert HyperparameterOf(knobs[n].0, knobs[n].1) == Some(x);
        }
      }
      forall i | 0 <= i < |knobs| && (knobs[i].1.kind == "integer" || knobs[i].1.kind == "float")
        ensures HyperparameterOf(knobs[i].0, knobs[i].1).value in s
      {
        if i < n { assert before[i] == knobs[i]; }
      }
    }
  }

  // ---------------------------------------------------------------------------
  // Names and paths
  // ---------------------------------------------------------------------------

  /**
   * The save identifier: the file name without extension for an `.xml`
   * workload, otherwise everything before the first `.wg`.
   */
  function SaveId(workloadFile: string): (r: string)
    ensures EndsWith(workloadFile, ".xml") ==> '/' !in r
    ensures !EndsWith(workloadFile, ".xml") ==>
              StartsWith(workloadFile, r) && forall k :: 0 <= k < |r| ==> !OccursAt(workloadFile, ".wg", k)
  {
    if EndsWith(workloadFile, ".xml") then
      StemOfBasename(workloadFile);
      Stem(Basename(workloadFile))
    else BeforeFirst(workloadFile, ".wg")
  }

  /** For `dir/name.xml` the save identifier is `name`. */
  lemma SaveIdOfXml(dir: string, name: string)
    requires dir != "" && dir[|dir| - 1] != '/'
    requires name != "" && '/' !in name && '.' !in name
    ensures SaveId(dir + "/" + name + ".xml") == name
  {
    var file := name + ".xml";
    assert '/' !in file by {
      forall k | 0 <= k < |file| ensures file[k] != '/' {
        if k < |name| { assert file[k] == name[k]; }
      }
    }
    var p := dir + "/" + file;
    assert p == dir + "/" + name + ".xml";
    assert EndsWith(p, ".xml") by { assert p[|p| - 4..] == ".xml"; }
    DirnameBasenameOfChild(dir, file);
    XmlFileName(name);
    StemDropsExtension(name, "xml");
  }

  lemma XmlFileName(name: string)
    ensures name + ".xml" == name + "." + "xml"
  {
    assert "." + "xml" == ".xml";
    Reassociate(name, ".", "xml");
  }

  /** The benchmarks whose internal metrics go to a per-benchmark directory. */
  const OltpBenchmarks: set<string> := {"tpcc", "ycsb", "smallbank", "wikipedia", "twitter"}

  const MetricsSuffix: string := "_internal_metrics.json"

  /** The file `default_run` writes the internal metrics to. */
  function MetricsFile(benchmark: string, workloadFile: string): string {
    if benchmark in OltpBenchmarks then
      "internal_metrics/" + benchmark + "/" + Stem(Basename(workloadFile)) + MetricsSuffix
    else "internal_metrics/" + BeforeFirst(workloadFile, ".wg") + MetricsSuffix
  }

  /**
   * The metrics file lies under `internal_metrics/` and ends in
   * `_internal_metrics.json`; for the BenchBase benchmarks it is named after
   * the workload's file name and lies directly in `internal_metrics/{benchmark}`.
   */
  lemma MetricsFileShape(benchmark: string, workloadFile: string)
    ensures var m := MetricsFile(benchmark, workloadFile);
            && StartsWith(m, "internal_metrics/") && EndsWith(m, MetricsSuffix)
    ensures benchmark in OltpBenchmarks ==>
              var m := MetricsFile(benchmark, workloadFile);
              && Dirname(m) == "internal_metrics/" + benchmark
              && Basename(m) == Stem(Basename(workloadFile)) + MetricsSuffix
  {
    var root := "internal_metrics/";
    if benchmark in OltpBenchmarks {
      var dir := root + benchmark;
      assert dir[..17] == root;
      UnderMetricsDir(dir, "/");
      UnderMetricsDir(dir + "/", Stem(Basename(workloadFile)));
      UnderMetricsDir(dir + "/" + Stem(Basename(workloadFile)), MetricsSuffix);
      MetricsFileOfOltp(benchmark, workloadFile);
    } else {
      var head := root + BeforeFirst(workloadFile, ".wg");
      assert head[..17] == root;
      UnderMetricsDir(head, MetricsSuffix);
    }
  }

  /** A path that starts with `internal_metrics/` still does once something is appended, and ends with what was appended. */
  lemma UnderMetricsDir(head: string, tail: string)
    requires StartsWith(head, "internal_metrics/")
    ensures StartsWith(head + tail, "internal_metrics/") && EndsWith(head + tail, tail)
  {
    assert (head + tail)[..17] == head[..17];
    assert (head + tail)[|head|..] == tail;
  }

  lemma MetricsFileOfOltp(benchmark: string, workloadFile: string)
    requires benchmark in OltpBenchmarks
    ensures Dirname(MetricsFile(benchmark, workloadFile)) == "internal_metrics/" + benchmark
    ensures Basename(MetricsFile(benchmark, workloadFile)) == Stem(Basename(workloadFile)) + MetricsSuffix
  {
    var base := Stem(Basename(workloadFile));
    StemOfBasename(workloadFile);
    NoSlashInAppend(base, MetricsSuffix);
    var dir := "internal_metrics/" + benchmark;
    assert dir[|dir| - 1] == benchmark[|benchmark| - 1];
    Reassociate(dir + "/", base, MetricsSuffix);
    DirnameBasenameOfChild(dir, base + MetricsSuffix);
  }

  lemma NoSlashInAppend(a: string, b: string)
    requires '/' !in a && '/' !in b
    ensures '/' !in a + b
  {
    forall k | 0 <= k < |a + b| ensures (a + b)[k] != '/' {
      if k < |a| { assert (a + b)[k] == a[k]; } else { assert (a + b)[k] == b[k - |a|]; }
    }
  }

  lemma Reassociate(a: string, b: string, c: string)
    ensures a + b + c == a + (b + c)
  {
    forall k | 0 <= k < |a + b + c| ensures (a + b + c)[k] == (a + (b + c))[k] {
      if k >= |a| { assert (a + (b + c))[k] == (b + c)[k - |a|]; }
    }
  }

  /**
   * `int(tuning_config.get('suggest_num', 100))`: config.ini settings are text,
   * so a set value is read by `int`, which ignores surrounding whitespace;
   * `None` where `int` raises `ValueError`. Unset, the budget is 100.
   */
  function RunBudget(suggestNum: Option<string>): Option<int> {
    if suggestNum.None? then Some(100) else ParseInt(Strip(suggestNum.value))
  }

  /** A setting written as a number, with or without surrounding spaces, is that number of runs. */
  lemma RunBudgetOfNumber(n: int, pad: string)
    requires forall k :: 0 <= k < |pad| ==> IsSpace(pad[k])
    ensures RunBudget(Some(IntToString(n))) == Some(n)
    ensures RunBudget(Some(pad + IntToString(n) + pad)) == Some(n)
  {
    var t := IntToString(n);
    ParseIntOfString(n);
    NoSpaceInIntString(n);
    StripShape(t);
    StripPadded(pad, t);
  }

  /** A setting without any digit makes `int` raise, and the tuning does not start. */
  lemma RunBudgetWithoutDigits(s: string)
    requires forall k :: 0 <= k < |s| ==> !IsDigit(s[k])
    ensures RunBudget(Some(s)) == None
  {
    var i, j := StripIsSlice(s);
    var t := Strip(s);
    if t != [] && (t[0] == '-' || t[0] == '+') && |t| > 1 {
      assert t[1] == s[i + 1];
    } else if t != [] {
      assert t[0] == s[i];
    }
  }

  lemma NoSpaceInIntString(n: int)
    ensures forall k :: 0 <= k < |IntToString(n)| ==> !IsSpace(IntToString(n)[k])
  {
    var d := NatToString(if n < 0 then -n else n);
    assert forall k :: 0 <= k < |d| ==> IsDigit(d[k]);
    if n < 0 {
      forall k | 0 <= k < |IntToString(n)| ensures !IsSpace(IntToString(n)[k]) {
        if k > 0 { assert IntToString(n)[k] == d[k - 1]; }
      }
    }
  }

  /** Padding a whitespace-free, non-empty text with whitespace on both sides does not change its strip. */
  lemma StripPadded(pad: string, t: string)
    requires forall k :: 0 <= k < |pad| ==> IsSpace(pad[k])
    requires t != [] && forall k :: 0 <= k < |t| ==> !IsSpace(t[k])
    ensures Strip(pad + t + pad) == t
  {
    var s := pad + t + pad;
    var i, j := StripIsSlice(s);
    StripShape(s);
    var r := Strip(s);
    assert s[|pad|] == t[0] && s[|pad| + |t| - 1] == t[|t| - 1];
    assert forall k :: 0 <= k < |pad| ==> s[k] == pad[k] && s[|pad| + |t| + k] == pad[k];
    assert i == |pad| && j == |pad| + |t|;
    assert s[|pad|..|pad| + |t|] == t;
  }
}
