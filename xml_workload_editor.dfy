/**
 * `xml_workload_editor.py`: `update_time_in_xml` rewrites the text of each
 * `<time>` element under `works/work` to the target duration, and `main`
 * counts the files it changed. Parsing and writing XML are not modelled: a
 * file is the sequence of the texts of its selected `<time>` elements (`None`
 * for an element without text), and `None` stands for a file that does not
 * parse.
 */
module XmlWorkloadEditor {
  import opened Wrappers
  import opened Text

  /** The duration `main` sets. */
  const TargetTime: int := 30

  /** `int(old_value.strip())` */
  function TimeValue(text: string): Option<int> {
    ParseInt(Strip(text))
  }

  /**
   * What happens to one `<time>` element: `int` raises on its text, the text is
   * kept, or it is replaced by `str(new_time)`. Only a non-empty text is parsed
   * (`old_value and …`), and it is replaced when its value differs.
   */
  datatype Verdict = Raises | Keep | Replace

  function VerdictOf(text: Option<string>, newTime: int): Verdict {
    if text.None? || text.value == "" then Keep
    else
      var v := TimeValue(text.value);
      if v.None? then Raises else if v.value != newTime then Replace else Keep
  }

  /** The verdicts of the elements, in document order. */
  function Verdicts(texts: seq<Option<string>>, newTime: int): (r: seq<Verdict>)
    ensures |r| == |texts|
  {
    if texts == [] then []
    else
      var n := |texts| - 1;
      Verdicts(texts[..n], newTime) + [VerdictOf(texts[n], newTime)]
  }

  lemma {:induction false} VerdictsAt(texts: seq<Option<string>>, newTime: int, k: nat)
    requires k < |texts|
    ensures Verdicts(texts, newTime)[k] == VerdictOf(texts[k], newTime)
  {
    var n := |texts| - 1;
    if k < n {
      VerdictsAt(texts[..n], newTime, k);
    }
  }

  /** The texts with every element whose verdict is `Replace` set to `str(new_time)`. */
  function Applied(texts: seq<Option<string>>, verdicts: seq<Verdict>, newTime: int): (r: seq<Option<string>>)
    requires |verdicts| == |texts|
    ensures |r| == |texts|
  {
    seq(|texts|, k requires 0 <= k < |texts| =>
      if verdicts[k] == Replace then Some(IntToString(newTime)) else texts[k])
  }

  /**
   * What `update_time_in_xml` returns and what it writes (`None`: the file is
   * left alone): a file that does not parse, or any text `int` raises on,
   * gives `False` and no write; otherwise the rewritten file is written, and
   * `True` returned, exactly when some element is replaced.
   */
  function UpdateOutcome(file: Option<seq<Option<string>>>, newTime: int): (bool, Option<seq<Option<string>>>) {
    if file.None? then (false, None)
    else
      var vs := Verdicts(file.value, newTime);
      if Raises in vs then (false, None)
      else if Replace in vs then (true, Some(Applied(file.value, vs, newTime)))
      else (false, None)
  }

  /** `update_time_in_xml(file_path, new_time)` */
  method UpdateTimeInXml(file: Option<seq<Option<string>>>, newTime: int)
    returns (updated: bool, written: Option<seq<Option<string>>>)
    ensures (updated, written) == UpdateOutcome(file, newTime)
  {
    if file.None? {
      return false, None;
    }
    var texts := file.value;
    ghost var vs := Verdicts(texts, newTime);
    var elems := texts;
    updated := false;
    for i := 0 to |elems|
      invariant |elems| == |texts|
      invariant forall k :: 0 <= k < i ==> vs[k] != Raises
      invariant updated <==> exists k :: 0 <= k < i && vs[k] == Replace
      invariant forall k :: 0 <= k < i ==> elems[k] == if vs[k] == Replace then Some(IntToString(newTime)) else texts[k]
      invariant forall k :: i <= k < |elems| ==> elems[k] == texts[k]
    {
      VerdictsAt(texts, newTime, i);
      var oldValue := elems[i];
      if oldValue.Some? && oldValue.value != "" {
        var v := TimeValue(oldValue.value);
        if v.None? {
          RaisesStops(texts, newTime, i);
          return false, None;
        }
        if v.value != newTime {
          elems := elems[i := Some(IntToString(newTime))];
          updated := true;
        }
      }
    }
    assert Raises !in vs;
    assert updated <==> Replace in vs;
    if updated {
      assert elems == Applied(texts, vs, newTime);
      written := Some(elems);
    } else {
      written := None;
    }
  }

  /** One text `int` raises on makes the whole update return `False` without writing. */
  lemma RaisesStops(texts: seq<Option<string>>, newTime: int, i: nat)
    requires i < |texts| && VerdictOf(texts[i], newTime) == Raises
    ensures UpdateOutcome(Some(texts), newTime) == (false, None)
  {
    VerdictsAt(texts, newTime, i);
    assert Verdicts(texts, newTime)[i] in Verdicts(texts, newTime);
  }

  /**
   * An element is replaced exactly when its text is non-empty and the integer of
   * its stripped text differs from the target; `int` is applied to every
   * non-empty text.
   */
  lemma VerdictRule(text: Option<string>, newTime: int)
    ensures VerdictOf(text, newTime) == Replace <==>
              text.Some? && text.value != "" && TimeValue(text.value).Some? && TimeValue(text.value).value != newTime
    ensures VerdictOf(text, newTime) == Raises <==> text.Some? && text.value != "" && TimeValue(text.value).None?
  {
  }

  /** The text `str(new_time)` is kept as it is. */
  lemma RewrittenTextIsCurrent(newTime: int)
    ensures VerdictOf(Some(IntToString(newTime)), newTime) == Keep
  {
    var s := IntToString(newTime);
    ParseIntOfString(newTime);
    StringOfIntHasNoSpace(newTime);
    assert Strip(s) == s;
    assert s != "" by {
      if newTime < 0 { assert s == "-" + NatToString(-newTime); } else { assert s == NatToString(newTime); }
    }
  }

  lemma StringOfIntHasNoSpace(n: int)
    ensures forall k :: 0 <= k < |IntToString(n)| ==> !IsSpace(IntToString(n)[k])
  {
    var d := NatToString(if n < 0 then -n else n);
    assert forall k :: 0 <= k < |d| ==> IsDigit(d[k]);
    if n < 0 {
      var s := "-" + d;
      forall k | 0 <= k < |s| ensures !IsSpace(s[k]) {
        if k > 0 { assert s[k] == d[k - 1]; }
      }
    }
  }

  /**
   * The file is written exactly when `True` is returned, and then exactly the
   * replaced elements differ from the original texts.
   */
  lemma WrittenIffUpdated(file: Option<seq<Option<string>>>, newTime: int)
    ensures var (updated, written) := UpdateOutcome(file, newTime);
            && (written.Some? <==> updated)
            && (updated ==> file.Some? && |written.value| == |file.value|
                            && forall k :: 0 <= k < |file.value| ==>
                                 (written.value[k] != file.value[k] <==> VerdictOf(file.value[k], newTime) == Replace))
  {
    var (updated, written) := UpdateOutcome(file, newTime);
    if updated {
      RewrittenTextIsCurrent(newTime);
      forall k | 0 <= k < |file.value|
        ensures written.value[k] != file.value[k] <==> VerdictOf(file.value[k], newTime) == Replace
      {
        VerdictsAt(file.value, newTime, k);
      }
    }
  }

  /** Running the update a second time on what the first run wrote changes nothing and returns `False`. */
  lemma UpdateIdempotent(file: Option<seq<Option<string>>>, newTime: int)
    requires UpdateOutcome(file, newTime).0
    ensures UpdateOutcome(UpdateOutcome(file, newTime).1, newTime) == (false, None)
  {
    var texts := file.value;
    var vs := Verdicts(texts, newTime);
    var w := Applied(texts, vs, newTime);
    var ws := Verdicts(w, newTime);
    RewrittenTextIsCurrent(newTime);
    forall k | 0 <= k < |w| ensures ws[k] == Keep {
      VerdictsAt(w, newTime, k);
      VerdictsAt(texts, newTime, k);
      assert vs[k] != Raises by { assert vs[k] in vs; }
    }
    assert Raises !in ws && Replace !in ws;
  }

  /** The number of files, among `files`, that `update_time_in_xml` changes. */
  function ChangedFiles(files: seq<Option<seq<Option<string>>>>, newTime: int): (r: nat)
    ensures r <= |files|
  {
    if files == [] then 0
    else
      var n := |files| - 1;
      ChangedFiles(files[..n], newTime) + (if UpdateOutcome(files[n], newTime).0 then 1 else 0)
  }

  /** `main`: how many of the files (in sorted order) `update_time_in_xml` changed. */
  method CountUpdated(files: seq<Option<seq<Option<string>>>>) returns (updatedCount: nat)
    ensures updatedCount == ChangedFiles(files, TargetTime) && updatedCount <= |files|
  {
    updatedCount := 0;
    for i := 0 to |files|
      invariant updatedCount == ChangedFiles(files[..i], TargetTime)
    {
      assert files[..i + 1][..i] == files[..i];
      var updated, _ := UpdateTimeInXml(files[i], TargetTime);
      if updated {
        updatedCount := updatedCount + 1;
      }
    }
    assert files[..|files|] == files;
  }
}
