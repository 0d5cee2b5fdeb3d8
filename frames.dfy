/** Chat tables as the loaders see them: an ordered list of column names and
    rows that map column names to cell values. A column a row lacks reads as
    missing (pandas' NaN). */
module Frames {
  import opened Seqs

  datatype Value = Str(s: string) | Missing

  type Row = map<string, Value>

  datatype Frame = Frame(columns: seq<string>, rows: seq<Row>)

  /** The cell of `row` in column `c`; an absent column is missing. */
  function Get(row: Row, c: string): Value {
    if c in row then row[c] else Missing
  }

  /** Distinct column names, and every row holds exactly those columns. */
  ghost predicate WellFormed(f: Frame) {
    NoDuplicates(f.columns)
    && forall r :: r in f.rows ==> r.Keys == set c | c in f.columns
  }

  /** `df[c] = v`: every row gets `v` in column `c`; a new column goes last. */
  function AssignColumn(f: Frame, c: string, v: Value): (g: Frame)
    ensures |g.rows| == |f.rows|
    ensures c in f.columns ==> g.columns == f.columns
    ensures c !in f.columns ==> g.columns == f.columns + [c]
    ensures forall i :: 0 <= i < |g.rows| ==> Get(g.rows[i], c) == v
    ensures forall i, d :: 0 <= i < |g.rows| && d != c ==> Get(g.rows[i], d) == Get(f.rows[i], d)
    ensures WellFormed(f) ==> WellFormed(g)
  {
    var cols := if c in f.columns then f.columns else f.columns + [c];
    var g := Frame(cols, seq(|f.rows|, i requires 0 <= i < |f.rows| => f.rows[i][c := v]));
    assert forall d :: d in cols <==> d in f.columns || d == c;
    g
  }

  /** `df.fillna(v)`: every missing cell of the listed columns becomes `v`. */
  function FillNa(f: Frame, v: Value): (g: Frame)
    ensures g.columns == f.columns && |g.rows| == |f.rows|
    ensures forall i, d :: 0 <= i < |g.rows| && d in f.columns ==>
      Get(g.rows[i], d) == (if Get(f.rows[i], d) == Missing then v else Get(f.rows[i], d))
    ensures WellFormed(f) ==> WellFormed(g)
  {
    Frame(f.columns, seq(|f.rows|, i requires 0 <= i < |f.rows| =>
      map d | d in f.columns :: if Get(f.rows[i], d) == Missing then v else Get(f.rows[i], d)))
  }

  /** A row restricted to, and completed with missing cells for, the listed columns. */
  function Project(row: Row, cols: seq<string>): (r: Row)
    ensures r.Keys == set c | c in cols
    ensures forall c :: Get(r, c) == if c in cols then Get(row, c) else Missing
  {
    map c | c in cols :: Get(row, c)
  }

  /** `pd.concat(frames, ignore_index=True)`: the rows of every frame, in order. */
  function ConcatRows(frames: seq<Frame>): seq<Row> {
    if frames == [] then [] else frames[0].rows + ConcatRows(frames[1..])
  }

  function TotalRows(frames: seq<Frame>): nat {
    if frames == [] then 0 else |frames[0].rows| + TotalRows(frames[1..])
  }

  /** `pd.concat(frames, ignore_index=True).reindex(cols, axis=1)`. */
  function CombineProjected(frames: seq<Frame>, cols: seq<string>): (g: Frame)
    ensures g.columns == cols
    ensures NoDuplicates(cols) ==> WellFormed(g)
  {
    var rows := ConcatRows(frames);
    Frame(cols, seq(|rows|, i requires 0 <= i < |rows| => Project(rows[i], cols)))
  }

  lemma {:induction false} ConcatRowsLength(frames: seq<Frame>)
    ensures |ConcatRows(frames)| == TotalRows(frames)
  {
    if frames != [] {
      ConcatRowsLength(frames[1..]);
    }
  }

  lemma {:induction false} ConcatRowsAppend(a: seq<Frame>, b: seq<Frame>)
    ensures ConcatRows(a + b) == ConcatRows(a) + ConcatRows(b)
  {
    if a == [] {
      assert a + b == b;
    } else {
      assert (a + b)[0] == a[0] && (a + b)[1..] == a[1..] + b;
      ConcatRowsAppend(a[1..], b);
    }
  }

  /** Combining keeps the rows in order: combining two lists of frames gives the
      rows of the first list, then those of the second, and a single frame
      contributes its own rows, projected. */
  lemma CombineAppend(a: seq<Frame>, b: seq<Frame>, cols: seq<string>)
    ensures CombineProjected(a + b, cols).rows
         == CombineProjected(a, cols).rows + CombineProjected(b, cols).rows
  {
    ConcatRowsAppend(a, b);
  }

  lemma CombineSingle(f: Frame, cols: seq<string>)
    ensures |CombineProjected([f], cols).rows| == |f.rows|
    ensures forall i, c :: 0 <= i < |f.rows| ==>
      Get(CombineProjected([f], cols).rows[i], c) == if c in cols then Get(f.rows[i], c) else Missing
  {
    assert [f][1..] == [];
    assert ConcatRows([f]) == f.rows + [];
  }

  /** Combining yields one row per input row. */
  lemma CombineRowCount(frames: seq<Frame>, cols: seq<string>)
    ensures |CombineProjected(frames, cols).rows| == TotalRows(frames)
  {
    ConcatRowsLength(frames);
  }
}
