/**
 * The older `data_pre` of `tuning_utils/new_task2.py`: the same split, drop,
 * cap and round-robin partition as `MultiThread`, except that the pieces are
 * not stripped before `;` is appended.
 */
module NewTask2 {
  import opened Text
  import opened MultiThread

  /** The pieces after `sql_list[i] += ";"` has been applied to each of them. */
  function Appended(pieces: seq<string>): seq<string> {
    seq(|pieces|, i requires 0 <= i < |pieces| => pieces[i] + ";")
  }

  /** The query list this variant partitions. */
  function RawQueries(text: string): seq<string> {
    var pieces := SplitOnSeparatorRuns(text);
    Cap(DropEmptyLast(Appended(pieces)))
  }

  lemma RawQueriesLength(pieces: seq<string>)
    requires |pieces| >= 1
    ensures var kept := if pieces[|pieces| - 1] == "" then |pieces| - 1 else |pieces|;
            |Cap(DropEmptyLast(Appended(pieces)))| == (if kept > MaxQueries then MaxQueries else kept)
  {
    var a := Appended(pieces);
    var last := pieces[|pieces| - 1];
    assert a[|a| - 1] == ";" <==> last == "" by {
      assert a[|a| - 1] == last + ";";
      if a[|a| - 1] == ";" { assert |last| == 0; }
    }
  }

  lemma RawQueriesElements(pieces: seq<string>)
    requires |pieces| >= 1
    ensures var r := Cap(DropEmptyLast(Appended(pieces)));
            forall i :: 0 <= i < |r| ==> r[i] == pieces[i] + ";"
  {
    var a := Appended(pieces);
    var d := DropEmptyLast(a);
    var r := Cap(d);
    forall i | 0 <= i < |r| ensures r[i] == pieces[i] + ";" {
      assert r[i] == d[i] == a[i];
    }
  }

  /**
   * Query `i` is piece `i` with `;` appended and nothing removed; at most the
   * first 3000 survive, and the last piece is dropped exactly when it is empty,
   * that is when the text is empty or ends with a separator.
   */
  lemma RawQueriesFromPieces(text: string)
    ensures var pieces := SplitOnSeparatorRuns(text);
            var kept := if text == "" || IsSeparator(text[|text| - 1]) then |pieces| - 1 else |pieces|;
            var r := RawQueries(text);
            && |r| == (if kept > MaxQueries then MaxQueries else kept)
            && forall i :: 0 <= i < |r| ==> r[i] == pieces[i] + ";"
  {
    var pieces := SplitOnSeparatorRuns(text);
    SplitPiecesShape(text);
    RawQueriesLength(pieces);
    RawQueriesElements(pieces);
  }

  /** Every query ends with the appended `;` and holds no other `;` or newline. */
  lemma RawQueryHasOneTerminator(text: string, i: nat)
    requires i < |RawQueries(text)|
    ensures var q := RawQueries(text)[i];
            && q != [] && q[|q| - 1] == ';'
            && NoSeparator(q[..|q| - 1])
  {
    var pieces := SplitOnSeparatorRuns(text);
    RawQueriesFromPieces(text);
    SplitPiecesShape(text);
    var q := RawQueries(text)[i];
    assert q[..|q| - 1] == pieces[i];
  }

  predicate SpaceFree(p: string) {
    forall k :: 0 <= k < |p| ==> !IsSpace(p[k])
  }

  /** Splitting a whitespace-free text gives whitespace-free pieces. */
  lemma {:induction false} SplitFromKeepsNoSpace(s: string, from: nat)
    requires from <= |s|
    requires forall k :: from <= k < |s| ==> !IsSpace(s[k])
    ensures forall i :: 0 <= i < |SplitFrom(s, from)| ==> SpaceFree(SplitFrom(s, from)[i])
    decreases |s| - from
  {
    var e := PieceEnd(s, from);
    var piece := if e == |s| then s[from..] else s[from..e];
    assert SpaceFree(piece) by {
      forall k | 0 <= k < |piece| ensures !IsSpace(piece[k]) { assert piece[k] == s[from + k]; }
    }
    if e < |s| {
      var j := RunEnd(s, e);
      SplitFromKeepsNoSpace(s, j);
      var r := SplitFrom(s, from);
      assert r == [piece] + SplitFrom(s, j);
      forall i | 0 <= i < |r| ensures SpaceFree(r[i]) {
        if i > 0 { assert r[i] == SplitFrom(s, j)[i - 1]; }
      }
    }
  }

  /**
   * On a text without whitespace the two variants build the same query list:
   * stripping only matters where a piece has leading or trailing whitespace.
   */
  lemma AgreesWithStrippedOnSpaceFreeText(text: string)
    requires SpaceFree(text)
    ensures RawQueries(text) == PreparedQueries(text)
  {
    var pieces := SplitOnSeparatorRuns(text);
    SplitFromKeepsNoSpace(text, 0);
    assert Terminated(pieces) == Appended(pieces) by {
      forall i | 0 <= i < |pieces| ensures Strip(pieces[i]) == pieces[i] {
        assert SpaceFree(pieces[i]);
      }
    }
  }

  /** `multi_thread` of `new_task2.py`: the workload text and the per-thread query lists. */
  class Executor {
    const threadNum: nat
    var wgFile: string
    var sqlListIdx: seq<seq<string>>

    constructor (threadNum: nat)
      ensures this.threadNum == threadNum && wgFile == "" && sqlListIdx == []
    {
      this.threadNum := threadNum;
      wgFile := "";
      sqlListIdx := [];
    }

    /**
     * `data_pre` on the text read from the workload file: split on separator runs,
     * append `;` to each piece in place, drop an empty last query, keep at most
     * 3000, then deal the queries out round-robin over the threads.
     */
    method DataPre(text: string)
      requires threadNum >= 1
      modifies this
      ensures wgFile == text
      ensures sqlListIdx == RoundRobin(RawQueries(text), threadNum)
    {
      wgFile := text;
      var pieces := SplitOnSeparatorRuns(text);
      var sqlList := new string[|pieces|](i requires 0 <= i < |pieces| => pieces[i]);
      assert sqlList[..] == pieces;
      AppendAll(sqlList);
      var qs := sqlList[..];
      ghost var appended := Appended(pieces);
      assert qs == appended;
      if qs[|qs| - 1] == ";" {
        qs := qs[..|qs| - 1];
      }
      assert qs == DropEmptyLast(appended);
      if |qs| > MaxQueries {
        qs := qs[..MaxQueries];
      }
      assert qs == RawQueries(text);
      sqlListIdx := Deal(qs, threadNum);
    }
  }

  /** `sql_list[i] += ";"` for every index, in place. */
  method AppendAll(sqlList: array<string>)
    modifies sqlList
    ensures sqlList[..] == Appended(old(sqlList[..]))
  {
    ghost var pieces := sqlList[..];
    for i := 0 to sqlList.Length
      invariant forall k :: 0 <= k < i ==> sqlList[k] == pieces[k] + ";"
      invariant forall k :: i <= k < sqlList.Length ==> sqlList[k] == pieces[k]
    {
      sqlList[i] := sqlList[i] + ";";
    }
    assert sqlList[..] == Appended(pieces);
  }
}
