/**
 * `surrogate/gather_training_data.py`: collects the `runhistory.jsonl` files
 * that the HEBO runs of the `job` and `tpch` benchmarks left behind, reads
 * their records line by line, tags each record with the file it came from,
 * and combines them into one document. The file system is a value the search
 * reads (which directories exist, which paths exist, and the entry names of
 * each directory), a file's content is its list of lines, and `json.loads` is
 * the parameter `parse` (`None` where it raises `JSONDecodeError`).
 */
module GatherTrainingData {
  import opened Wrappers
  import opened Text
  import opened Paths
  import opened Json

  /** The benchmark directories searched under the base directory, in this order. */
  const BenchmarkDirs: seq<string> := ["job", "tpch"]

  const OutputSuffix: string := "_hebo_output"
  const HistoryName: string := "runhistory.jsonl"

  /** The key each record is tagged with. */
  const SourceKey: string := "__source"

  /** The part of the file system the search reads. */
  datatype FileSystem = FileSystem(dirs: set<string>, paths: set<string>, entries: map<string, seq<string>>)

  /** The entry names of `dir`, in listing order; none for a path that is not listed. */
  function Entries(fs: FileSystem, dir: string): seq<string> {
    if dir in fs.entries then fs.entries[dir] else []
  }

  // ---------------------------------------------------------------------------
  // `find_runhistory_files`
  // ---------------------------------------------------------------------------

  /** A name `*_hebo_output` matches: `*` may be empty but, as in `glob`, never matches a leading `.`. */
  predicate IsOutputDirName(name: string) {
    EndsWith(name, OutputSuffix) && name[0] != '.'
  }

  /**
   * The file the entry `name` of `dir` contributes to the pattern
   * `*_hebo_output/runhistory.jsonl` under `dir`, if any: the name matches, the
   * entry is a directory, and its `runhistory.jsonl` exists.
   */
  function Hit(fs: FileSystem, dir: string, name: string): Option<string> {
    var sub := Join(dir, name);
    var f := Join(sub, HistoryName);
    if IsOutputDirName(name) && sub in fs.dirs && f in fs.paths then Some(f) else None
  }

  /** The entry `name` of `dir` yields the file `f`. */
  predicate Yields(fs: FileSystem, dir: string, name: string, f: string) {
    Hit(fs, dir, name) == Some(f)
  }

  /** The files `hit` gives for the entries `names`, in the entries' order. */
  function Collect(hit: string -> Option<string>, names: seq<string>): (r: seq<string>)
    ensures |r| <= |names|
  {
    if names == [] then []
    else
      var n := |names| - 1;
      var h := hit(names[n]);
      Collect(hit, names[..n]) + (if h.Some? then [h.value] else [])
  }

  lemma {:induction false} CollectMembers(hit: string -> Option<string>, names: seq<string>, f: string)
    ensures f in Collect(hit, names) <==> exists name :: name in names && hit(name) == Some(f)
  {
    if names != [] {
      var n := |names| - 1;
      var init := names[..n];
      var last := names[n];
      var h := hit(last);
      var tail := if h.Some? then [h.value] else [];
      CollectMembers(hit, init, f);
      assert Collect(hit, names) == Collect(hit, init) + tail;
      if f in Collect(hit, names) {
        if f in Collect(hit, init) {
          var name :| name in init && hit(name) == Some(f);
          assert name in names;
        } else {
          assert hit(last) == Some(f);
        }
      } else {
        forall name | name in names ensures hit(name) != Some(f) {
          var k :| 0 <= k < |names| && names[k] == name;
          if k < n { assert init[k] == name; }
        }
      }
    }
  }

  /** `glob.glob(os.path.join(dir, '*_hebo_output', 'runhistory.jsonl'))` over the entries `names` of `dir`. */
  function GlobMatches(fs: FileSystem, dir: string, names: seq<string>): seq<string> {
    Collect(name => Hit(fs, dir, name), names)
  }

  /** The files one benchmark contributes: none when its directory does not exist. */
  function BenchOutput(fs: FileSystem, baseDir: string, bench: string): seq<string> {
    var dir := Join(baseDir, bench);
    if dir in fs.dirs then GlobMatches(fs, dir, Entries(fs, dir)) else []
  }

  /** The files the loop over `benches` collects. */
  function FoundIn(fs: FileSystem, baseDir: string, benches: seq<string>): seq<string> {
    if benches == [] then []
    else
      var n := |benches| - 1;
      FoundIn(fs, baseDir, benches[..n]) + BenchOutput(fs, baseDir, benches[n])
  }

  /** `find_runhistory_files(base_dir)` */
  method FindRunhistoryFiles(fs: FileSystem, baseDir: string) returns (files: seq<string>)
    ensures files == SortStrings(FoundIn(fs, baseDir, BenchmarkDirs))
  {
    var found: seq<string> := [];
    for i := 0 to |BenchmarkDirs|
      invariant found == FoundIn(fs, baseDir, BenchmarkDirs[..i])
    {
      assert BenchmarkDirs[..i + 1][..i] == BenchmarkDirs[..i];
      var benchDir := Join(baseDir, BenchmarkDirs[i]);
      if benchDir !in fs.dirs {
        continue;
      }
      found := found + GlobMatches(fs, benchDir, Entries(fs, benchDir));
    }
    assert BenchmarkDirs[..|BenchmarkDirs|] == BenchmarkDirs;
    files := SortStrings(found);
  }

  /** `f` is found in the benchmark directory `bench`: it exists as a directory and one of its entries yields `f`. */
  predicate FoundInBench(fs: FileSystem, baseDir: string, bench: string, f: string) {
    var dir := Join(baseDir, bench);
    dir in fs.dirs && exists name :: name in Entries(fs, dir) && Yields(fs, dir, name, f)
  }

  lemma GlobMatchesMembers(fs: FileSystem, dir: string, names: seq<string>, f: string)
    ensures f in GlobMatches(fs, dir, names) <==> exists name :: name in names && Yields(fs, dir, name, f)
  {
    CollectMembers(name => Hit(fs, dir, name), names, f);
  }

  lemma BenchOutputMembers(fs: FileSystem, baseDir: string, bench: string, f: string)
    ensures f in BenchOutput(fs, baseDir, bench) <==> FoundInBench(fs, baseDir, bench, f)
  {
    var dir := Join(baseDir, bench);
    GlobMatchesMembers(fs, dir, Entries(fs, dir), f);
  }

  lemma {:induction false} FoundInMembers(fs: FileSystem, baseDir: string, benches: seq<string>, f: string)
    ensures f in FoundIn(fs, baseDir, benches) <==> exists b :: b in benches && FoundInBench(fs, baseDir, b, f)
  {
    if benches != [] {
      var n := |benches| - 1;
      var init := benches[..n];
      var last := benches[n];
      FoundInMembers(fs, baseDir, init, f);
      BenchOutputMembers(fs, baseDir, last, f);
      assert FoundIn(fs, baseDir, benches) == FoundIn(fs, baseDir, init) + BenchOutput(fs, baseDir, last);
      if f in FoundIn(fs, baseDir, benches) {
        if f in FoundIn(fs, baseDir, init) {
          var b :| b in init && FoundInBench(fs, baseDir, b, f);
          assert b in benches;
        } else {
          assert FoundInBench(fs, baseDir, last, f);
        }
      } else {
        forall b | b in benches ensures !FoundInBench(fs, baseDir, b, f) {
          var k :| 0 <= k < |benches| && benches[k] == b;
          if k < n { assert init[k] == b; }
        }
      }
    }
  }

  /**
   * The returned list is sorted, and a path is in it exactly when it is the
   * `runhistory.jsonl` of a `*_hebo_output` directory of `job` or `tpch`;
   * a benchmark directory that does not exist contributes nothing.
   */
  lemma FoundFiles(fs: FileSystem, baseDir: string, f: string)
    ensures SortedStrings(SortStrings(FoundIn(fs, baseDir, BenchmarkDirs)))
    ensures f in SortStrings(FoundIn(fs, baseDir, BenchmarkDirs)) <==>
              FoundInBench(fs, baseDir, "job", f) || FoundInBench(fs, baseDir, "tpch", f)
  {
    var found := FoundIn(fs, baseDir, BenchmarkDirs);
    FoundInMembers(fs, baseDir, BenchmarkDirs, f);
    assert f in SortStrings(found) <==> f in found by {
      assert f in SortStrings(found) <==> f in multiset(SortStrings(found));
    }
  }

  // ---------------------------------------------------------------------------
  // `read_jsonl_records`
  // ---------------------------------------------------------------------------

  /** What stops the combination: a parsed line that is not an object (`TypeError`), or a file that cannot be opened. */
  datatype Failure = NotAnObject(path: string) | CannotOpen(path: string)

  /** `d[key] = value` on the members of a dict: an existing key keeps its place, a new one goes last. */
  function SetMember(members: seq<(string, Json)>, key: string, value: Json): (r: seq<(string, Json)>)
    ensures Get(r, key) == Some(value)
    ensures forall k :: k != key ==> Get(r, k) == Get(members, k)
  {
    if members == [] then [(key, value)]
    else if members[0].0 == key then [(key, value)] + members[1..]
    else
      var t := SetMember(members[1..], key, value);
      assert forall k :: k != members[0].0 ==> Get([members[0]] + t, k) == Get(t, k);
      [members[0]] + t
  }

  /** `obj['__source'] = path`: `None` where it raises `TypeError` (`obj` is not a dict). */
  function Tagged(obj: Json, path: string): Option<Json> {
    if obj.JObject? then Some(JObject(SetMember(obj.members, SourceKey, JString(path)))) else None
  }

  /** The records read from the lines `lines` of the file `path`. */
  function Records(lines: seq<string>, path: string, parse: string -> Option<Json>): Result<seq<Json>, Failure> {
    if lines == [] then Ok([])
    else
      var n := |lines| - 1;
      var prev := Records(lines[..n], path, parse);
      var line := Strip(lines[n]);
      if prev.Err? || line == "" then prev
      else
        var obj := parse(line);
        if obj.None? then prev
        else
          var tagged := Tagged(obj.value, path);
          if tagged.None? then Err(NotAnObject(path)) else Ok(prev.value + [tagged.value])
  }

  /** `read_jsonl_records(path)` on the lines of the file. */
  method ReadJsonlRecords(lines: seq<string>, path: string, parse: string -> Option<Json>)
    returns (records: Result<seq<Json>, Failure>)
    ensures records == Records(lines, path, parse)
  {
    var kept: seq<Json> := [];
    for i := 0 to |lines|
      invariant Records(lines[..i], path, parse) == Ok(kept)
    {
      assert lines[..i + 1][..i] == lines[..i];
      var line := Strip(lines[i]);
      if line == "" {
        continue;
      }
      var obj := parse(line);
      if obj.None? {
        continue;
      }
      var tagged := Tagged(obj.value, path);
      if tagged.None? {
        assert Records(lines[..i + 1], path, parse).Err?;
        PrefixError(lines, i + 1, path, parse);
        return Err(NotAnObject(path));
      }
      kept := kept + [tagged.value];
    }
    assert lines[..|lines|] == lines;
    records := Ok(kept);
  }

  /** Once a prefix of the lines fails, reading the whole file fails the same way. */
  lemma {:induction false} PrefixError(lines: seq<string>, i: nat, path: string, parse: string -> Option<Json>)
    requires i <= |lines| && Records(lines[..i], path, parse).Err?
    ensures Records(lines, path, parse) == Records(lines[..i], path, parse)
  {
    if i < |lines| {
      var n := |lines| - 1;
      assert lines[..n][..i] == lines[..i];
      PrefixError(lines[..n], i, path, parse);
    } else {
      assert lines[..i] == lines;
    }
  }

  /**
   * Reading one more line: a blank line (after stripping) or one `json.loads`
   * rejects leaves the records as they were; a line holding an object appends
   * that object, tagged with `path`; any other value fails the read.
   */
  lemma ReadOneMoreLine(lines: seq<string>, line: string, path: string, parse: string -> Option<Json>)
    requires Records(lines, path, parse).Ok?
    ensures var before := Records(lines, path, parse).value;
            var after := Records(lines + [line], path, parse);
            var s := Strip(line);
            && (s == "" || parse(s).None? ==> after == Ok(before))
            && (s != "" && parse(s).Some? && parse(s).value.JObject? ==>
                  after.Ok? && after.value[..|before|] == before && |after.value| == |before| + 1
                  && Get(after.value[|before|].members, SourceKey) == Some(JString(path)))
            && (s != "" && parse(s).Some? && !parse(s).value.JObject? ==> after == Err(NotAnObject(path)))
  {
    assert (lines + [line])[..|lines|] == lines;
  }

  /** Every record read from `path` is an object whose `__source` is `path`. */
  lemma {:induction false} RecordsAreTagged(lines: seq<string>, path: string, parse: string -> Option<Json>)
    requires Records(lines, path, parse).Ok?
    ensures var rs := Records(lines, path, parse).value;
            && |rs| <= |lines|
            && forall k :: 0 <= k < |rs| ==> rs[k].JObject? && Get(rs[k].members, SourceKey) == Some(JString(path))
  {
    if lines != [] {
      var n := |lines| - 1;
      RecordsAreTagged(lines[..n], path, parse);
    }
  }

  // ---------------------------------------------------------------------------
  // `combine_runhistories`
  // ---------------------------------------------------------------------------

  /** The document written to the output file. */
  datatype Combined = Combined(count: nat, files: seq<string>, records: seq<Json>)

  /** The records read so far, extended by those of the file `src`, or the first failure. */
  function ReadNext(prev: Result<seq<Json>, Failure>, src: string, contents: map<string, seq<string>>,
                    parse: string -> Option<Json>): Result<seq<Json>, Failure> {
    if prev.Err? then prev
    else if src !in contents then Err(CannotOpen(src))
    else
      var rs := Records(contents[src], src, parse);
      if rs.Err? then Err(rs.error) else Ok(prev.value + rs.value)
  }

  /** The records of the files `sources`, read in order and concatenated. */
  function ReadAll(sources: seq<string>, contents: map<string, seq<string>>, parse: string -> Option<Json>): Result<seq<Json>, Failure> {
    if sources == [] then Ok([])
    else
      var n := |sources| - 1;
      ReadNext(ReadAll(sources[..n], contents, parse), sources[n], contents, parse)
  }

  lemma ReadAllSnoc(sources: seq<string>, i: nat, contents: map<string, seq<string>>, parse: string -> Option<Json>)
    requires i < |sources|
    ensures ReadAll(sources[..i + 1], contents, parse) == ReadNext(ReadAll(sources[..i], contents, parse), sources[i], contents, parse)
  {
    assert sources[..i + 1][..i] == sources[..i];
  }

  /** What `combine_runhistories` writes, or the failure that stops it. */
  function CombineOutcome(fs: FileSystem, baseDir: string, contents: map<string, seq<string>>, parse: string -> Option<Json>): Result<Combined, Failure> {
    var sources := SortStrings(FoundIn(fs, baseDir, BenchmarkDirs));
    var all := ReadAll(sources, contents, parse);
    if all.Err? then Err(all.error) else Ok(Combined(|all.value|, sources, all.value))
  }

  /** `combine_runhistories(base_dir, output_path)`: the document it writes (its `records` are what it returns). */
  method CombineRunhistories(fs: FileSystem, baseDir: string, contents: map<string, seq<string>>, parse: string -> Option<Json>)
    returns (r: Result<Combined, Failure>)
    ensures r == CombineOutcome(fs, baseDir, contents, parse)
  {
    var sources := FindRunhistoryFiles(fs, baseDir);
    var allRecords: seq<Json> := [];
    for i := 0 to |sources|
      invariant ReadAll(sources[..i], contents, parse) == Ok(allRecords)
    {
      var src := sources[i];
      ReadAllStep(sources, i, contents, parse, allRecords);
      if src !in contents {
        return Err(CannotOpen(src));
      }
      var records := ReadJsonlRecords(contents[src], src, parse);
      if records.Err? {
        return Err(records.error);
      }
      allRecords := allRecords + records.value;
    }
    assert sources[..|sources|] == sources;
    r := Ok(Combined(|allRecords|, sources, allRecords));
  }

  lemma {:induction false} ReadAllPrefixError(sources: seq<string>, i: nat, contents: map<string, seq<string>>, parse: string -> Option<Json>)
    requires i <= |sources| && ReadAll(sources[..i], contents, parse).Err?
    ensures ReadAll(sources, contents, parse) == ReadAll(sources[..i], contents, parse)
  {
    if i < |sources| {
      var n := |sources| - 1;
      assert sources[..n][..i] == sources[..i];
      ReadAllPrefixError(sources[..n], i, contents, parse);
    } else {
      assert sources[..i] == sources;
    }
  }

  /** The three ways reading the next file ends: it is missing, its records fail, or they are appended. */
  lemma ReadAllStep(sources: seq<string>, i: nat, contents: map<string, seq<string>>, parse: string -> Option<Json>, acc: seq<Json>)
    requires i < |sources| && ReadAll(sources[..i], contents, parse) == Ok(acc)
    ensures sources[i] !in contents ==> ReadAll(sources, contents, parse) == Err(CannotOpen(sources[i]))
    ensures sources[i] in contents && Records(contents[sources[i]], sources[i], parse).Err? ==>
              ReadAll(sources, contents, parse) == Err(Records(contents[sources[i]], sources[i], parse).error)
    ensures sources[i] in contents && Records(contents[sources[i]], sources[i], parse).Ok? ==>
              ReadAll(sources[..i + 1], contents, parse) == Ok(acc + Records(contents[sources[i]], sources[i], parse).value)
  {
    ReadAllSnoc(sources, i, contents, parse);
    if ReadAll(sources[..i + 1], contents, parse).Err? {
      ReadAllPrefixError(sources, i + 1, contents, parse);
    }
  }

  /** The `__source` tag of a record, when it has a string one. */
  function SourceTag(x: Json): Option<string> {
    if x.JObject? && Get(x.members, SourceKey).Some? && Get(x.members, SourceKey).value.JString?
    then Some(Get(x.members, SourceKey).value.s) else None
  }

  lemma {:induction false} ReadAllTagged(sources: seq<string>, contents: map<string, seq<string>>, parse: string -> Option<Json>)
    requires ReadAll(sources, contents, parse).Ok?
    ensures var all := ReadAll(sources, contents, parse).value;
            forall k :: 0 <= k < |all| ==> SourceTag(all[k]).Some? && SourceTag(all[k]).value in sources
  {
    if sources != [] {
      var n := |sources| - 1;
      ReadAllTagged(sources[..n], contents, parse);
      var prev := ReadAll(sources[..n], contents, parse).value;
      var src := sources[n];
      RecordsAreTagged(contents[src], src, parse);
      var rs := Records(contents[src], src, parse).value;
      var all := prev + rs;
      forall k | 0 <= k < |all| ensures SourceTag(all[k]).Some? && SourceTag(all[k]).value in sources {
        if k < |prev| {
          assert all[k] == prev[k];
          assert SourceTag(prev[k]).value in sources[..n];
        } else {
          assert all[k] == rs[k - |prev|];
        }
      }
    }
  }

  /**
   * The written document: `count` is the number of records, `files` is the
   * sorted list of sources, and every record is tagged with one of those
   * files.
   */
  lemma CombinedShape(fs: FileSystem, baseDir: string, contents: map<string, seq<string>>, parse: string -> Option<Json>)
    requires CombineOutcome(fs, baseDir, contents, parse).Ok?
    ensures var c := CombineOutcome(fs, baseDir, contents, parse).value;
            && c.count == |c.records|
            && SortedStrings(c.files)
            && forall k :: 0 <= k < |c.records| ==> SourceTag(c.records[k]).Some? && SourceTag(c.records[k]).value in c.files
  {
    var sources := SortStrings(FoundIn(fs, baseDir, BenchmarkDirs));
    ReadAllTagged(sources, contents, parse);
  }

  /** The records of the sources are concatenated in the sources' order. */
  lemma ReadAllAppend(sources: seq<string>, src: string, contents: map<string, seq<string>>, parse: string -> Option<Json>)
    requires ReadAll(sources, contents, parse).Ok? && src in contents && Records(contents[src], src, parse).Ok?
    ensures ReadAll(sources + [src], contents, parse)
              == Ok(ReadAll(sources, contents, parse).value + Records(contents[src], src, parse).value)
  {
    assert (sources + [src])[..|sources|] == sources;
  }
}
