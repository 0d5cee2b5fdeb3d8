/** The sentiment step of utils/chatprocessor.py as functions: which rows of a
    label are sent to the analyzer, what the analyzer's reply (or exception)
    becomes, and how the replies are written back into the label column and
    the `Reason` column. The analyzer is a function from one call (label,
    row, prompt) to its outcome. */
module Sentiment {
  import opened Wrappers
  import opened Seqs
  import opened Tagging

  /** The reply record: whether the analysis worked, the sentiment, why. */
  datatype SentimentResponse = SentimentResponse(success: bool, sentiment: string, reason: string)

  /** What one call of `analyze` does: return a reply or raise. */
  datatype AnalyzerOutcome = Returned(response: SentimentResponse) | Raised(message: string)

  /** One `analyze` call, given the label, the row it is made for and the
      user prompt. Each tagged row is a call of its own, so two rows with the
      same message may get different replies. */
  type Analyzer = (string, nat, string) -> AnalyzerOutcome

  /** The `(header, index, response)` triple a task yields. */
  datatype TaskResult = TaskResult(header: string, index: nat, response: SentimentResponse)

  /** `_wrap_analyze_with_index`: the label and row travel with the reply; an
      exception becomes an unsuccessful reply with sentiment "I" and the
      exception's text as reason. */
  function WrapAnalyze(outcome: AnalyzerOutcome, header: string, index: nat): (t: TaskResult)
    ensures t.header == header && t.index == index
    ensures outcome.Returned? ==> t.response == outcome.response
    ensures outcome.Raised? ==>
      !t.response.success && t.response.sentiment == "I" && t.response.reason == outcome.message
  {
    match outcome
    case Returned(response) => TaskResult(header, index, response)
    case Raised(message) => TaskResult(header, index, SentimentResponse(false, "I", message))
  }

  /** The user prompt for one message; a missing body prints as "nan". */
  function UserPrompt(header: string, body: Option<string>): string {
    "Formula Brand: " + header + ", Message: " + (if body.Some? then body.value else "nan")
  }

  /** `_chat_df_zero_to_string`: every 0 becomes "", every other cell stays. */
  function ZeroToString(col: seq<Cell>): (r: seq<Cell>)
    ensures |r| == |col|
    ensures forall i :: 0 <= i < |col| ==> r[i] == if col[i] == Int(0) then Str("") else col[i]
  {
    seq(|col|, i requires 0 <= i < |col| => if col[i] == Int(0) then Str("") else col[i])
  }

  /** The rows `df[header] == 1` selects, in row order. */
  function SentIndices(col: seq<Cell>): (idx: seq<nat>)
    ensures forall i :: 0 <= i < |col| ==> (i in idx <==> col[i] == Int(1))
    ensures forall j, k :: 0 <= j < k < |idx| ==> idx[j] < idx[k]
    ensures forall k :: 0 <= k < |idx| ==> idx[k] < |col|
  {
    if col == [] then []
    else
      var init := SentIndices(col[..|col| - 1]);
      assert forall i :: 0 <= i < |col| - 1 ==> col[..|col| - 1][i] == col[i];
      init + (if col[|col| - 1] == Int(1) then [|col| - 1] else [])
  }

  /** The reply the analyzer gives for row `i` of label `header`. */
  function Reply(analyzer: Analyzer, header: string, bodies: seq<Option<string>>, i: nat): SentimentResponse
    requires i < |bodies|
  {
    WrapAnalyze(analyzer(header, i, UserPrompt(header, bodies[i])), header, i).response
  }

  /** An analyzer that answers "positive" for row `row` and "negative" for
      every other row, whatever the prompt. */
  function RowAnalyzer(row: nat): Analyzer {
    (h: string, i: nat, p: string) =>
      Returned(SentimentResponse(true, if i == row then "positive" else "negative", ""))
  }

  /** Replies are per call: two rows holding the same message can be given
      different sentiments. */
  lemma RepliesPerRow(header: string, bodies: seq<Option<string>>, i: nat, j: nat)
    requires i < |bodies| && j < |bodies| && i != j
    ensures Reply(RowAnalyzer(i), header, bodies, i) == SentimentResponse(true, "positive", "")
    ensures Reply(RowAnalyzer(i), header, bodies, j) == SentimentResponse(true, "negative", "")
  {
  }

  /** The gathered results, one per sent row, in the order sent. */
  function Results(analyzer: Analyzer, header: string, bodies: seq<Option<string>>, idx: seq<nat>): (rs: seq<TaskResult>)
    requires forall k :: 0 <= k < |idx| ==> idx[k] < |bodies|
    ensures |rs| == |idx|
    ensures forall k :: 0 <= k < |rs| ==>
      rs[k].header == header && rs[k].index == idx[k] && rs[k].response == Reply(analyzer, header, bodies, idx[k])
  {
    var rs := seq(|idx|, k requires 0 <= k < |idx| => WrapAnalyze(analyzer(header, idx[k], UserPrompt(header, bodies[idx[k]])), header, idx[k]));
    assert forall k :: 0 <= k < |rs| ==> rs[k] == WrapAnalyze(analyzer(header, idx[k], UserPrompt(header, bodies[idx[k]])), header, idx[k]);
    rs
  }

  /** The line a reply adds to `Reason`. */
  function Line(header: string, response: SentimentResponse): string {
    header + ": " + response.reason + "\n"
  }

  /** A label column and the `Reason` column. */
  datatype Merged = Merged(col: seq<Cell>, reasons: seq<string>)

  predicate InRange(m: Merged, rs: seq<TaskResult>) {
    forall k :: 0 <= k < |rs| ==> rs[k].index < |m.col| && rs[k].index < |m.reasons|
  }

  /** One step of the result loop: on success the cell becomes the
      sentiment; in any case the reply's line goes onto that row's reason. */
  function ApplyResult(m: Merged, t: TaskResult): (r: Merged)
    requires t.index < |m.col| && t.index < |m.reasons|
    ensures |r.col| == |m.col| && |r.reasons| == |m.reasons|
  {
    var i := t.index;
    Merged(if t.response.success then m.col[i := Str(t.response.sentiment)] else m.col,
           m.reasons[i := m.reasons[i] + Line(t.header, t.response)])
  }

  /** The result loop of `_check_sentiment`, over the results in order. */
  function MergeResults(m: Merged, rs: seq<TaskResult>): (r: Merged)
    requires InRange(m, rs)
    ensures |r.col| == |m.col| && |r.reasons| == |m.reasons|
    decreases |rs|
  {
    if rs == [] then m
    else ApplyResult(MergeResults(m, rs[..|rs| - 1]), rs[|rs| - 1])
  }

  /** The sentiment step for one label: zeroes to "", then the replies for
      the rows still holding 1 merged back. */
  function HeaderSentiment(analyzer: Analyzer, header: string, bodies: seq<Option<string>>,
                           col: seq<Cell>, reasons: seq<string>): (r: Merged)
    requires |col| == |bodies| && |reasons| == |bodies|
    ensures |r.col| == |bodies| && |r.reasons| == |bodies|
  {
    var z := ZeroToString(col);
    MergeResults(Merged(z, reasons), Results(analyzer, header, bodies, SentIndices(z)))
  }

  predicate Increasing(rs: seq<TaskResult>) {
    forall j, k :: 0 <= j < k < |rs| ==> rs[j].index < rs[k].index
  }

  /** Row `i` is not among the results' rows. */
  predicate Untouched(rs: seq<TaskResult>, i: int) {
    forall k :: 0 <= k < |rs| ==> rs[k].index != i
  }

  /** Merging results for distinct rows gives each of those rows exactly its
      own reply, and leaves every other row alone. */
  lemma {:induction false} MergeClosed(m: Merged, rs: seq<TaskResult>)
    requires InRange(m, rs) && Increasing(rs) && |m.col| == |m.reasons|
    ensures forall i :: 0 <= i < |m.col| && Untouched(rs, i) ==>
      MergeResults(m, rs).col[i] == m.col[i] && MergeResults(m, rs).reasons[i] == m.reasons[i]
    ensures forall k :: 0 <= k < |rs| ==>
      MergeResults(m, rs).col[rs[k].index]
        == (if rs[k].response.success then Str(rs[k].response.sentiment) else m.col[rs[k].index])
      && MergeResults(m, rs).reasons[rs[k].index]
        == m.reasons[rs[k].index] + Line(rs[k].header, rs[k].response)
    decreases |rs|
  {
    if rs != [] {
      var init := rs[..|rs| - 1];
      var t := rs[|rs| - 1];
      assert forall k :: 0 <= k < |init| ==> init[k] == rs[k];
      MergeClosed(m, init);
      var prev := MergeResults(m, init);
      var r := MergeResults(m, rs);
      assert r == ApplyResult(prev, t);
      forall i | 0 <= i < |m.col| && Untouched(rs, i)
        ensures r.col[i] == m.col[i] && r.reasons[i] == m.reasons[i]
      {
        assert Untouched(init, i);
      }
      assert Untouched(init, t.index);
      forall k | 0 <= k < |rs|
        ensures r.col[rs[k].index]
          == (if rs[k].response.success then Str(rs[k].response.sentiment) else m.col[rs[k].index])
        ensures r.reasons[rs[k].index] == m.reasons[rs[k].index] + Line(rs[k].header, rs[k].response)
      {
        if k < |rs| - 1 {
          assert rs[k].index != t.index;
        }
      }
    }
  }

  /** The sentiment step for one label, cell by cell: a 0 becomes "" and
      its reason is unchanged; a 1 becomes the sentiment on success and stays
      1 otherwise, and its reason gets exactly the reply's line; any other
      cell and its reason are unchanged. */
  lemma HeaderSentimentCells(analyzer: Analyzer, header: string, bodies: seq<Option<string>>,
                             col: seq<Cell>, reasons: seq<string>, i: nat)
    requires |col| == |bodies| && |reasons| == |bodies| && i < |bodies|
    ensures var r := HeaderSentiment(analyzer, header, bodies, col, reasons);
      var reply := Reply(analyzer, header, bodies, i);
      (col[i] == Int(0) ==> r.col[i] == Str("") && r.reasons[i] == reasons[i])
      && (col[i] == Int(1) ==>
            r.col[i] == (if reply.success then Str(reply.sentiment) else Int(1))
            && r.reasons[i] == reasons[i] + Line(header, reply))
      && (col[i] != Int(0) && col[i] != Int(1) ==> r.col[i] == col[i] && r.reasons[i] == reasons[i])
  {
    var z := ZeroToString(col);
    var idx := SentIndices(z);
    var rs := Results(analyzer, header, bodies, idx);
    MergeClosed(Merged(z, reasons), rs);
    if z[i] == Int(1) {
      var k :| 0 <= k < |idx| && idx[k] == i;
    } else {
      assert Untouched(rs, i);
    }
  }

  /** The column a label ends with. */
  function SentimentColumn(analyzer: Analyzer, header: string, bodies: seq<Option<string>>,
                           col: seq<Cell>): (r: seq<Cell>)
    requires |col| == |bodies|
    ensures |r| == |col|
  {
    seq(|col|, i requires 0 <= i < |col| =>
      if col[i] == Int(0) then Str("")
      else if col[i] == Int(1) then
        (var reply := Reply(analyzer, header, bodies, i); if reply.success then Str(reply.sentiment) else Int(1))
      else col[i])
  }

  /** The line a label adds to row `i`'s reason: its reply's line when the
      row was tagged, nothing otherwise. */
  function ReasonLine(analyzer: Analyzer, header: string, bodies: seq<Option<string>>,
                      col: seq<Cell>, i: nat): string
    requires |col| == |bodies| && i < |bodies|
  {
    if col[i] == Int(1) then Line(header, Reply(analyzer, header, bodies, i)) else ""
  }

  lemma HeaderSentimentClosed(analyzer: Analyzer, header: string, bodies: seq<Option<string>>,
                              col: seq<Cell>, reasons: seq<string>)
    requires |col| == |bodies| && |reasons| == |bodies|
    ensures HeaderSentiment(analyzer, header, bodies, col, reasons).col == SentimentColumn(analyzer, header, bodies, col)
    ensures forall i :: 0 <= i < |bodies| ==>
      HeaderSentiment(analyzer, header, bodies, col, reasons).reasons[i]
      == reasons[i] + ReasonLine(analyzer, header, bodies, col, i)
  {
    var r := HeaderSentiment(analyzer, header, bodies, col, reasons);
    forall i | 0 <= i < |bodies|
      ensures r.col[i] == SentimentColumn(analyzer, header, bodies, col)[i]
      ensures r.reasons[i] == reasons[i] + ReasonLine(analyzer, header, bodies, col, i)
    {
      HeaderSentimentCells(analyzer, header, bodies, col, reasons, i);
      if col[i] != Int(1) {
        assert reasons[i] + "" == reasons[i];
      }
    }
  }

  /** The label columns and reasons during the sentiment step. */
  datatype Sheet = Sheet(cols: Columns, reasons: seq<string>)

  predicate SheetFits(s: Sheet, hs: seq<string>, n: nat) {
    Fits(s.cols, n) && Has(s.cols, hs) && |s.reasons| == n
  }

  /** What the sentiment step for label `h` does to the sheet: the label's
      column becomes its sentiment column, every reason gets its line. */
  function SentimentStep(analyzer: Analyzer, h: string, bodies: seq<Option<string>>, s: Sheet): (r: Sheet)
    requires Fits(s.cols, |bodies|) && h in s.cols && |s.reasons| == |bodies|
    ensures Fits(r.cols, |bodies|) && r.cols.Keys == s.cols.Keys && |r.reasons| == |bodies|
    ensures forall x :: x in s.cols && x != h ==> r.cols[x] == s.cols[x]
  {
    var n := |bodies|;
    Sheet(s.cols[h := SentimentColumn(analyzer, h, bodies, s.cols[h])],
          seq(n, i requires 0 <= i < n => s.reasons[i] + ReasonLine(analyzer, h, bodies, s.cols[h], i)))
  }

  /** The zero-to-string conversion followed by the result loop performs
      exactly the sentiment step. */
  lemma MergeMatchesStep(analyzer: Analyzer, h: string, bodies: seq<Option<string>>, s: Sheet)
    requires Fits(s.cols, |bodies|) && h in s.cols && |s.reasons| == |bodies|
    ensures var m := HeaderSentiment(analyzer, h, bodies, s.cols[h], s.reasons);
      SentimentStep(analyzer, h, bodies, s) == Sheet(s.cols[h := m.col], m.reasons)
  {
    HeaderSentimentClosed(analyzer, h, bodies, s.cols[h], s.reasons);
  }

  /** The header loop of `_check_sentiment`: each label in turn. */
  function SentimentPass(analyzer: Analyzer, hs: seq<string>, bodies: seq<Option<string>>, s: Sheet): (r: Sheet)
    requires SheetFits(s, hs, |bodies|)
    ensures SheetFits(r, hs, |bodies|) && r.cols.Keys == s.cols.Keys
    ensures forall h :: h in s.cols && h !in hs ==> r.cols[h] == s.cols[h]
    decreases |hs|
  {
    if hs == [] then s
    else
      var h := hs[|hs| - 1];
      var prev := SentimentPass(analyzer, hs[..|hs| - 1], bodies, s);
      assert forall x :: x in hs <==> x in hs[..|hs| - 1] || x == h;
      SentimentStep(analyzer, h, bodies, prev)
  }

  /** Row `i`'s reason after a list of labels: the reason it started with,
      followed by each label's line, in label order. */
  function ReasonAfter(analyzer: Analyzer, hs: seq<string>, bodies: seq<Option<string>>, cols: Columns,
                       i: nat, start: string): string
    requires Fits(cols, |bodies|) && Has(cols, hs) && i < |bodies|
    decreases |hs|
  {
    if hs == [] then start
    else
      var h := hs[|hs| - 1];
      ReasonAfter(analyzer, hs[..|hs| - 1], bodies, cols, i, start) + ReasonLine(analyzer, h, bodies, cols[h], i)
  }

  /** Over distinct labels, each label ends with its own sentiment column. */
  lemma {:induction false} SentimentPassColumns(analyzer: Analyzer, hs: seq<string>,
                                                bodies: seq<Option<string>>, s: Sheet)
    requires SheetFits(s, hs, |bodies|) && NoDuplicates(hs)
    ensures forall h :: h in hs ==>
      SentimentPass(analyzer, hs, bodies, s).cols[h] == SentimentColumn(analyzer, h, bodies, s.cols[h])
    decreases |hs|
  {
    if hs != [] {
      var init := hs[..|hs| - 1];
      var h := hs[|hs| - 1];
      assert forall x :: x in hs <==> x in init || x == h;
      LastNotInInit(hs);
      SentimentPassColumns(analyzer, init, bodies, s);
      var prev := SentimentPass(analyzer, init, bodies, s);
    }
  }

  /** Over distinct labels, each row's reason gets, in label order, one line
      per label that tagged it. */
  lemma {:induction false} SentimentPassReasons(analyzer: Analyzer, hs: seq<string>,
                                                bodies: seq<Option<string>>, s: Sheet)
    requires SheetFits(s, hs, |bodies|) && NoDuplicates(hs)
    ensures forall i :: 0 <= i < |bodies| ==>
      SentimentPass(analyzer, hs, bodies, s).reasons[i] == ReasonAfter(analyzer, hs, bodies, s.cols, i, s.reasons[i])
    decreases |hs|
  {
    if hs != [] {
      var init := hs[..|hs| - 1];
      var h := hs[|hs| - 1];
      LastNotInInit(hs);
      assert forall x :: x in init ==> x in hs;
      SentimentPassReasons(analyzer, init, bodies, s);
      var prev := SentimentPass(analyzer, init, bodies, s);
      assert prev.cols[h] == s.cols[h];
    }
  }

  lemma LastNotInInit(hs: seq<string>)
    requires hs != [] && NoDuplicates(hs)
    ensures NoDuplicates(hs[..|hs| - 1]) && hs[|hs| - 1] !in hs[..|hs| - 1]
  {
    var init := hs[..|hs| - 1];
    assert forall j :: 0 <= j < |init| ==> init[j] == hs[j];
  }
}
