/**
 * `utils.py`: the natural-order sort key of workload file names
 * (`natural_keys`), the sort built on it (`natural_sort`), and the set of
 * completed workload names read from the performance-record directory
 * (`get_completed_workloads`).
 */
module Utils {
  import opened Wrappers
  import opened Text
  import opened Paths

  // ---------------------------------------------------------------------------
  // `re.findall(r"\d+|\D+", text)`: maximal runs of digits and of non-digits
  // ---------------------------------------------------------------------------

  /** The end of the run that started at `start`, scanning from `from`. */
  function RunStop(s: string, start: nat, from: nat): (r: nat)
    requires start < from <= |s|
    ensures from <= r <= |s|
    ensures forall k :: from <= k < r ==> IsDigit(s[k]) == IsDigit(s[start])
    ensures r < |s| ==> IsDigit(s[r]) != IsDigit(s[start])
    decreases |s| - from
  {
    if from == |s| || IsDigit(s[from]) != IsDigit(s[start]) then from else RunStop(s, start, from + 1)
  }

  /** The runs of `s[from..]`. */
  function RunsFrom(s: string, from: nat): seq<string>
    requires from <= |s|
    decreases |s| - from
  {
    if from == |s| then []
    else
      var e := RunStop(s, from, from + 1);
      [s[from..e]] + RunsFrom(s, e)
  }

  /** The parts `natural_keys` finds: maximal runs of digits and of non-digits. */
  function Runs(s: string): seq<string> {
    RunsFrom(s, 0)
  }

  function Concat(parts: seq<string>): string {
    if parts == [] then [] else parts[0] + Concat(parts[1..])
  }

  /** A run is non-empty and all of its characters are digits or all are not. */
  predicate Homogeneous(p: string) {
    p != [] && forall k :: 0 <= k < |p| ==> IsDigit(p[k]) == IsDigit(p[0])
  }

  lemma {:induction false} RunsFromConcat(s: string, from: nat)
    requires from <= |s|
    ensures Concat(RunsFrom(s, from)) == s[from..]
    decreases |s| - from
  {
    if from < |s| {
      var e := RunStop(s, from, from + 1);
      RunsFromConcat(s, e);
      var r := RunsFrom(s, from);
      assert r[1..] == RunsFrom(s, e);
      assert s[from..] == s[from..e] + s[e..];
    }
  }

  lemma {:induction false} RunsFromShape(s: string, from: nat)
    requires from <= |s|
    ensures var r := RunsFrom(s, from);
            && (forall i :: 0 <= i < |r| ==> Homogeneous(r[i]))
            && (forall i :: 0 <= i < |r| - 1 ==> IsDigit(r[i][0]) != IsDigit(r[i + 1][0]))
            && (r != [] ==> r[0][0] == s[from])
    decreases |s| - from
  {
    if from < |s| {
      var e := RunStop(s, from, from + 1);
      var run := s[from..e];
      assert Homogeneous(run) by {
        forall k | 0 <= k < |run| ensures IsDigit(run[k]) == IsDigit(run[0]) {
          assert run[k] == s[from + k];
        }
      }
      RunsFromShape(s, e);
      var r := RunsFrom(s, from);
      var rest := RunsFrom(s, e);
      assert r == [run] + rest;
      forall i | 0 <= i < |r| ensures Homogeneous(r[i]) {
        if i > 0 { assert r[i] == rest[i - 1]; }
      }
      forall i | 0 <= i < |r| - 1 ensures IsDigit(r[i][0]) != IsDigit(r[i + 1][0]) {
        if i > 0 { assert r[i] == rest[i - 1] && r[i + 1] == rest[i]; }
      }
    }
  }

  /**
   * The runs of a text are non-empty, each is all digits or all non-digits,
   * digit and non-digit runs alternate (so every run is maximal), and together
   * they spell the text.
   */
  lemma RunsPartitionText(s: string)
    ensures var r := Runs(s);
            && Concat(r) == s
            && (forall i :: 0 <= i < |r| ==> Homogeneous(r[i]))
            && (forall i :: 0 <= i < |r| - 1 ==> IsDigit(r[i][0]) != IsDigit(r[i + 1][0]))
            && (r == [] <==> s == [])
  {
    RunsFromConcat(s, 0);
    RunsFromShape(s, 0);
  }

  // ---------------------------------------------------------------------------
  // Keys
  // ---------------------------------------------------------------------------

  /** An element of a natural key: `int(p)` for a digit run, `p.lower()` otherwise. */
  datatype Token = Num(value: nat) | Word(text: string)

  /** `int(p) if p.isdigit() else p.lower()` */
  function TokenOf(p: string): Token {
    if p != [] && AllDigits(p) then Num(DigitsValue(p)) else Word(Lower(p))
  }

  /** `natural_keys(text)` */
  function NaturalKeys(text: string): seq<Token> {
    var parts := Runs(text);
    seq(|parts|, i requires 0 <= i < |parts| => TokenOf(parts[i]))
  }

  /**
   * Key `i` of a text is the value of run `i` when that run is made of digits and
   * the lower-cased run otherwise; number and word tokens alternate.
   */
  lemma NaturalKeysOfRuns(text: string)
    ensures var parts, key := Runs(text), NaturalKeys(text);
            && |key| == |parts|
            && (forall i :: 0 <= i < |key| ==> parts[i] != [] && (key[i].Num? <==> IsDigit(parts[i][0])))
            && (forall i :: 0 <= i < |key| ==> key[i].Num? ==> AllDigits(parts[i]) && key[i].value == DigitsValue(parts[i]))
            && (forall i :: 0 <= i < |key| ==> key[i].Word? ==> key[i].text == Lower(parts[i]))
            && (forall i :: 0 <= i < |key| - 1 ==> key[i].Num? != key[i + 1].Num?)
  {
    RunsPartitionText(text);
    var parts := Runs(text);
    forall i | 0 <= i < |parts| ensures AllDigits(parts[i]) <==> IsDigit(parts[i][0]) {
      assert Homogeneous(parts[i]);
    }
  }

  /** Token `i` of a key is a number exactly when `i` has the parity of the first token's kind. */
  lemma {:induction false} KindsByParity(text: string, i: nat)
    requires i < |NaturalKeys(text)|
    ensures var key := NaturalKeys(text);
            key[i].Num? <==> (key[0].Num? <==> i % 2 == 0)
  {
    NaturalKeysOfRuns(text);
    if i > 0 { KindsByParity(text, i - 1); }
  }

  /**
   * Python compares `int` with `str` only by raising `TypeError`; the keys of two
   * texts can put a number against a word at the same position only when the
   * texts start with characters of different kinds (one a digit, one not).
   */
  lemma KindMismatchOnlyWhenFirstCharsDiffer(a: string, b: string, i: nat)
    requires i < |NaturalKeys(a)| && i < |NaturalKeys(b)|
    requires NaturalKeys(a)[i].Num? != NaturalKeys(b)[i].Num?
    ensures a != [] && b != [] && IsDigit(a[0]) != IsDigit(b[0])
  {
    KindsByParity(a, i);
    KindsByParity(b, i);
    NaturalKeysOfRuns(a);
    NaturalKeysOfRuns(b);
    RunsPartitionText(a);
    RunsPartitionText(b);
    RunsFromShape(a, 0);
    RunsFromShape(b, 0);
  }

  /**
   * The order used on keys: Python's list comparison, token by token, with a
   * shorter key first when it is a prefix. Numbers compare by value and words as
   * strings; where Python would raise `TypeError` (a number against a word) the
   * model puts the number first.
   */
  predicate TokenLess(a: Token, b: Token) {
    match (a, b)
    case (Num(x), Num(y)) => x < y
    case (Word(x), Word(y)) => StrLess(x, y)
    case (Num(_), Word(_)) => true
    case (Word(_), Num(_)) => false
  }

  predicate KeyLess(a: seq<Token>, b: seq<Token>) {
    if a == [] then b != []
    else if b == [] then false
    else if a[0] != b[0] then TokenLess(a[0], b[0])
    else KeyLess(a[1..], b[1..])
  }

  predicate KeyLe(a: seq<Token>, b: seq<Token>) {
    a == b || KeyLess(a, b)
  }

  lemma TokenLessTotal(a: Token, b: Token)
    ensures TokenLess(a, b) || a == b || TokenLess(b, a)
  {
    if a.Word? && b.Word? { StrLessTotal(a.text, b.text); }
  }

  lemma TokenLessAsymmetric(a: Token, b: Token)
    ensures TokenLess(a, b) ==> !TokenLess(b, a)
  {
    if a.Word? && b.Word? { StrLessAsymmetric(a.text, b.text); }
  }

  lemma TokenLessTransitive(a: Token, b: Token, c: Token)
    requires TokenLess(a, b) && TokenLess(b, c)
    ensures TokenLess(a, c)
  {
    if a.Word? && b.Word? && c.Word? { StrLessTransitive(a.text, b.text, c.text); }
  }

  lemma {:induction false} KeyLessTotal(a: seq<Token>, b: seq<Token>)
    ensures KeyLess(a, b) || a == b || KeyLess(b, a)
  {
    if a != [] && b != [] {
      if a[0] == b[0] {
        KeyLessTotal(a[1..], b[1..]);
        if a[1..] == b[1..] { assert a == [a[0]] + a[1..]; assert b == [b[0]] + b[1..]; }
      } else {
        TokenLessTotal(a[0], b[0]);
      }
    }
  }

  lemma {:induction false} KeyLessAsymmetric(a: seq<Token>, b: seq<Token>)
    ensures KeyLess(a, b) ==> !KeyLess(b, a)
  {
    if a != [] && b != [] {
      if a[0] == b[0] { KeyLessAsymmetric(a[1..], b[1..]); }
      else { TokenLessAsymmetric(a[0], b[0]); }
    }
  }

  lemma {:induction false} KeyLessTransitive(a: seq<Token>, b: seq<Token>, c: seq<Token>)
    requires KeyLess(a, b) && KeyLess(b, c)
    ensures KeyLess(a, c)
  {
    if a != [] && b != [] && c != [] {
      if a[0] == b[0] && b[0] == c[0] {
        KeyLessTransitive(a[1..], b[1..], c[1..]);
      } else if a[0] != b[0] && b[0] != c[0] {
        TokenLessTransitive(a[0], b[0], c[0]);
        if a[0] == c[0] { TokenLessAsymmetric(a[0], b[0]); }
      }
    }
  }

  lemma KeyLeTransitive(a: seq<Token>, b: seq<Token>, c: seq<Token>)
    requires KeyLe(a, b) && KeyLe(b, c)
    ensures KeyLe(a, c)
  {
    if a != b && b != c { KeyLessTransitive(a, b, c); }
  }

  // ---------------------------------------------------------------------------
  // `natural_sort(items)`: `sorted(items, key=natural_keys)`, which is stable
  // ---------------------------------------------------------------------------

  predicate SortedByKey(s: seq<string>) {
    forall i, j :: 0 <= i < j < |s| ==> KeyLe(NaturalKeys(s[i]), NaturalKeys(s[j]))
  }

  /** Insert `x` in front of the first element whose key is not below its own. */
  function InsertByKey(x: string, s: seq<string>): (r: seq<string>)
    ensures |r| == |s| + 1
  {
    if s == [] then [x]
    else if KeyLe(NaturalKeys(x), NaturalKeys(s[0])) then [x] + s
    else [s[0]] + InsertByKey(x, s[1..])
  }

  /**
   * `natural_sort(items)`: the items are inserted back to front, each one ahead
   * of the items with an equal key, so that equal keys keep their input order.
   */
  function NaturalSort(items: seq<string>): (r: seq<string>)
    ensures |r| == |items|
  {
    if items == [] then [] else InsertByKey(items[0], NaturalSort(items[1..]))
  }

  lemma {:induction false} InsertByKeyPermutes(x: string, s: seq<string>)
    ensures multiset(InsertByKey(x, s)) == multiset(s) + multiset{x}
  {
    if s != [] {
      assert s == [s[0]] + s[1..];
      if !KeyLe(NaturalKeys(x), NaturalKeys(s[0])) {
        InsertByKeyPermutes(x, s[1..]);
      }
    }
  }

  /** Every key in `s` is at least `k`. */
  predicate KeyBound(k: seq<Token>, s: seq<string>) {
    forall j :: 0 <= j < |s| ==> KeyLe(k, NaturalKeys(s[j]))
  }

  lemma {:induction false} InsertByKeyKeepsBound(k: seq<Token>, x: string, s: seq<string>)
    requires KeyBound(k, s) && KeyLe(k, NaturalKeys(x))
    ensures KeyBound(k, InsertByKey(x, s))
  {
    if s != [] && !KeyLe(NaturalKeys(x), NaturalKeys(s[0])) {
      assert KeyBound(k, s[1..]) by {
        forall j | 0 <= j < |s[1..]| ensures KeyLe(k, NaturalKeys(s[1..][j])) { assert s[1..][j] == s[j + 1]; }
      }
      InsertByKeyKeepsBound(k, x, s[1..]);
      var r := InsertByKey(x, s);
      forall j | 0 <= j < |r| ensures KeyLe(k, NaturalKeys(r[j])) {
        if j > 0 { assert r[j] == InsertByKey(x, s[1..])[j - 1]; }
      }
    }
  }

  /** A sequence is sorted when its head bounds its tail and its tail is sorted. */
  lemma SortedCons(a: string, t: seq<string>)
    requires KeyBound(NaturalKeys(a), t) && SortedByKey(t)
    ensures SortedByKey([a] + t)
  {
    var r := [a] + t;
    forall i, j | 0 <= i < j < |r| ensures KeyLe(NaturalKeys(r[i]), NaturalKeys(r[j])) {
      assert r[j] == t[j - 1];
      if i > 0 { assert r[i] == t[i - 1]; }
    }
  }

  lemma SortedTail(s: seq<string>)
    requires s != [] && SortedByKey(s)
    ensures KeyBound(NaturalKeys(s[0]), s[1..]) && SortedByKey(s[1..])
  {
    forall j | 0 <= j < |s[1..]| ensures KeyLe(NaturalKeys(s[0]), NaturalKeys(s[1..][j])) {
      assert s[1..][j] == s[j + 1];
    }
    forall i, j | 0 <= i < j < |s[1..]| ensures KeyLe(NaturalKeys(s[1..][i]), NaturalKeys(s[1..][j])) {
      assert s[1..][i] == s[i + 1] && s[1..][j] == s[j + 1];
    }
  }

  lemma {:induction false} InsertByKeySorted(x: string, s: seq<string>)
    requires SortedByKey(s)
    ensures SortedByKey(InsertByKey(x, s))
  {
    if s != [] {
      var kx := NaturalKeys(x);
      SortedTail(s);
      if KeyLe(kx, NaturalKeys(s[0])) {
        assert KeyBound(kx, s) by {
          forall j | 0 <= j < |s| ensures KeyLe(kx, NaturalKeys(s[j])) {
            if j > 0 { assert s[j] == s[1..][j - 1]; KeyLeTransitive(kx, NaturalKeys(s[0]), NaturalKeys(s[j])); }
          }
        }
        SortedCons(x, s);
      } else {
        KeyLessTotal(kx, NaturalKeys(s[0]));
        InsertByKeySorted(x, s[1..]);
        InsertByKeyKeepsBound(NaturalKeys(s[0]), x, s[1..]);
        SortedCons(s[0], InsertByKey(x, s[1..]));
      }
    }
  }

  /** The items of `s` whose key is `key`, in order. */
  function WithKey(s: seq<string>, key: seq<Token>): seq<string> {
    if s == [] then [] else (if NaturalKeys(s[0]) == key then [s[0]] else []) + WithKey(s[1..], key)
  }

  lemma {:induction false} InsertByKeyStable(x: string, s: seq<string>, key: seq<Token>)
    ensures WithKey(InsertByKey(x, s), key) == (if NaturalKeys(x) == key then [x] else []) + WithKey(s, key)
  {
    if s != [] {
      var kx := NaturalKeys(x);
      var r := InsertByKey(x, s);
      var xp := if kx == key then [x] else [];
      var sp := if NaturalKeys(s[0]) == key then [s[0]] else [];
      assert WithKey(s, key) == sp + WithKey(s[1..], key);
      if KeyLe(kx, NaturalKeys(s[0])) {
        assert r[0] == x && r[1..] == s;
        assert WithKey(r, key) == xp + WithKey(s, key);
      } else {
        InsertByKeyStable(x, s[1..], key);
        assert r[0] == s[0] && r[1..] == InsertByKey(x, s[1..]);
        assert NaturalKeys(s[0]) != kx;
        var w := WithKey(s[1..], key);
        assert WithKey(r, key) == sp + (xp + w);
        assert sp + (xp + w) == xp + (sp + w) by {
          if sp == [] { assert sp + (xp + w) == xp + w; } else { assert xp == []; assert xp + (sp + w) == sp + w; }
        }
      }
    }
  }

  /**
   * `natural_sort` returns a permutation of its input that is ordered by key,
   * and the items that share a key (for example names differing only in case)
   * keep their input order.
   */
  lemma NaturalSortCorrect(items: seq<string>)
    ensures multiset(NaturalSort(items)) == multiset(items)
    ensures SortedByKey(NaturalSort(items))
    ensures forall key :: WithKey(NaturalSort(items), key) == WithKey(items, key)
  {
    NaturalSortPermutes(items);
    NaturalSortSorted(items);
    forall key ensures WithKey(NaturalSort(items), key) == WithKey(items, key) {
      NaturalSortStable(items, key);
    }
  }

  lemma {:induction false} NaturalSortPermutes(items: seq<string>)
    ensures multiset(NaturalSort(items)) == multiset(items)
  {
    if items != [] {
      NaturalSortPermutes(items[1..]);
      InsertByKeyPermutes(items[0], NaturalSort(items[1..]));
      assert items == [items[0]] + items[1..];
    }
  }

  lemma {:induction false} NaturalSortSorted(items: seq<string>)
    ensures SortedByKey(NaturalSort(items))
  {
    if items != [] {
      NaturalSortSorted(items[1..]);
      InsertByKeySorted(items[0], NaturalSort(items[1..]));
    }
  }

  lemma {:induction false} NaturalSortStable(items: seq<string>, key: seq<Token>)
    ensures WithKey(NaturalSort(items), key) == WithKey(items, key)
  {
    if items != [] {
      NaturalSortStable(items[1..], key);
      InsertByKeyStable(items[0], NaturalSort(items[1..]), key);
    }
  }

  // ---------------------------------------------------------------------------
  // The documented example
  // ---------------------------------------------------------------------------

  /** A run that starts at `start` stops at `e` when `e` is the first change of kind. */
  lemma {:induction false} RunStopAt(s: string, start: nat, from: nat, e: nat)
    requires start < from <= e <= |s|
    requires forall k :: from <= k < e ==> IsDigit(s[k]) == IsDigit(s[start])
    requires e < |s| ==> IsDigit(s[e]) != IsDigit(s[start])
    ensures RunStop(s, start, from) == e
    decreases e - from
  {
    if from < e { RunStopAt(s, start, from + 1, e); }
  }

  /** `job_<digits>.wg` splits into the runs `job_`, the digits and `.wg`. */
  lemma RunsOfNumberedName(d: string)
    requires d != [] && AllDigits(d)
    ensures Runs("job_" + d + ".wg") == ["job_", d, ".wg"]
  {
    var s := "job_" + d + ".wg";
    var e := 4 + |d|;
    assert forall k :: 4 <= k < e ==> s[k] == d[k - 4];
    assert s[e] == '.' && s[e + 1] == 'w' && s[e + 2] == 'g';
    RunStopAt(s, 0, 1, 4);
    RunStopAt(s, 4, 5, e);
    RunStopAt(s, e, e + 1, e + 3);
    assert RunsFrom(s, e) == [s[e..e + 3]] + RunsFrom(s, e + 3);
    assert RunsFrom(s, 4) == [s[4..e]] + RunsFrom(s, e);
    assert RunsFrom(s, 0) == [s[0..4]] + RunsFrom(s, 4);
    assert s[0..4] == "job_" && s[4..e] == d && s[e..e + 3] == ".wg";
  }

  /** The key of `job_<digits>.wg` is the word `job_`, the number, and the word `.wg`. */
  lemma KeysOfNumberedName(d: string)
    requires d != [] && AllDigits(d)
    ensures NaturalKeys("job_" + d + ".wg") == [Word("job_"), Num(DigitsValue(d)), Word(".wg")]
  {
    RunsOfNumberedName(d);
    assert TokenOf("job_") == Word("job_") by {
      assert !IsDigit("job_"[0]);
      assert Lower("job_") == "job_";
    }
    assert TokenOf(".wg") == Word(".wg") by {
      assert !IsDigit(".wg"[0]);
      assert Lower(".wg") == ".wg";
    }
  }

  /** Two names that differ only in their number are ordered by that number. */
  lemma NumberedKeysOrder(m: nat, n: nat)
    ensures var km, kn := [Word("job_"), Num(m), Word(".wg")], [Word("job_"), Num(n), Word(".wg")];
            KeyLe(km, kn) <==> m <= n
  {
    var km, kn := [Word("job_"), Num(m), Word(".wg")], [Word("job_"), Num(n), Word(".wg")];
    assert km[0] == kn[0];
    assert KeyLess(km, kn) == KeyLess(km[1..], kn[1..]);
    if m == n { assert km == kn; }
    else {
      assert km != kn by { assert km[1] != kn[1]; }
      assert km[1..][0] == Num(m) && kn[1..][0] == Num(n);
      assert KeyLess(km[1..], kn[1..]) == (m < n);
    }
  }

  /** How three items with these key relations are sorted. */
  lemma SortThree(a: string, b: string, c: string)
    requires KeyLe(NaturalKeys(a), NaturalKeys(c)) && !KeyLe(NaturalKeys(b), NaturalKeys(c))
    ensures NaturalSort([a, b, c]) == [a, c, b]
  {
    assert NaturalSort([c]) == [c];
    assert NaturalSort([b, c]) == InsertByKey(b, [c]) by { assert [b, c][1..] == [c]; }
    assert InsertByKey(b, [c]) == [c, b];
    assert NaturalSort([a, b, c]) == InsertByKey(a, [c, b]) by { assert [a, b, c][1..] == [b, c]; }
  }

  /** `job_<d>.wg` */
  function JobName(d: string): string {
    "job_" + d + ".wg"
  }

  /** Numbered workload names sort by their number, not by their characters. */
  lemma NumberedNamesSortByNumber(x: string, y: string, z: string)
    requires x != [] && AllDigits(x) && y != [] && AllDigits(y) && z != [] && AllDigits(z)
    requires DigitsValue(x) <= DigitsValue(z) < DigitsValue(y)
    ensures NaturalSort([JobName(x), JobName(y), JobName(z)]) == [JobName(x), JobName(z), JobName(y)]
  {
    KeysOfNumberedName(x);
    KeysOfNumberedName(y);
    KeysOfNumberedName(z);
    NumberedKeysOrder(DigitsValue(y), DigitsValue(z));
    NumberedKeysOrder(DigitsValue(x), DigitsValue(z));
    SortThree(JobName(x), JobName(y), JobName(z));
  }

  /** The example in the docstring of `natural_sort`. */
  lemma DocumentedExample()
    ensures NaturalSort(["job_1.wg", "job_10.wg", "job_2.wg"]) == ["job_1.wg", "job_2.wg", "job_10.wg"]
  {
    ExampleNumbers();
    ExampleNames();
    NumberedNamesSortByNumber("1", "10", "2");
  }

  lemma ExampleNumbers()
    ensures "1" != [] && AllDigits("1") && DigitsValue("1") == 1
    ensures "10" != [] && AllDigits("10") && DigitsValue("10") == 10
    ensures "2" != [] && AllDigits("2") && DigitsValue("2") == 2
  {
    assert DigitsValue("10") == 10;
  }

  lemma ExampleNames()
    ensures JobName("1") == "job_1.wg" && JobName("10") == "job_10.wg" && JobName("2") == "job_2.wg"
  {
  }

  // ---------------------------------------------------------------------------
  // `get_completed_workloads(perf_dir)`
  // ---------------------------------------------------------------------------

  /**
   * The names of the performance records without their last extension. `listing`
   * is what `os.listdir(perf_dir)` returns, or `None` when `perf_dir` is not a
   * directory or cannot be listed; both give the empty set, as does an empty
   * `perf_dir`.
   */
  method CompletedWorkloads(perfDir: string, listing: Option<seq<string>>) returns (completed: set<string>)
    ensures perfDir == "" || listing.None? ==> completed == {}
    ensures perfDir != "" && listing.Some? ==>
              completed == set i | 0 <= i < |listing.value| :: Stem(listing.value[i])
  {
    completed := {};
    if perfDir == "" {
      return;
    }
    match listing
    case None =>
      return;
    case Some(names) =>
      for i := 0 to |names|
        invariant completed == set j | 0 <= j < i :: Stem(names[j])
      {
        completed := completed + {Stem(names[i])};
      }
  }
}
