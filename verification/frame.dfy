/** The slice of a pandas DataFrame the model needs: an ordered list of
    column names and rows mapping each column name to a cell. */
module Frames {

  /** A cell: pandas' missing value (`None`/`NaN`), a string, or a boolean. */
  datatype Cell = Null | Text(s: string) | Flag(b: bool)

  type Row = map<string, Cell>

  datatype Frame = Frame(columns: seq<string>, rows: seq<Row>)

  /** No element occurs twice. */
  predicate Distinct<T(==)>(s: seq<T>) {
    forall i, j | 0 <= i < j < |s| :: s[i] != s[j]
  }

  /** No element of `a` occurs in `b`. */
  predicate Disjoint<T(==)>(a: seq<T>, b: seq<T>) {
    forall i, j | 0 <= i < |a| && 0 <= j < |b| :: a[i] != b[j]
  }

  lemma DistinctConcat<T>(a: seq<T>, b: seq<T>)
    requires Distinct(a) && Distinct(b) && Disjoint(a, b)
    ensures Distinct(a + b)
  {
    var s := a + b;
    forall i, j | 0 <= i < j < |s| ensures s[i] != s[j] {
      if j < |a| {
        assert s[i] == a[i] && s[j] == a[j];
      } else if i >= |a| {
        assert s[i] == b[i - |a|] && s[j] == b[j - |a|];
      } else {
        assert s[i] == a[i] && s[j] == b[j - |a|];
      }
    }
  }

  function ColumnSet(f: Frame): set<string> {
    set c | c in f.columns
  }

  /** Column names are unique and every row has exactly the frame's columns. */
  predicate WellFormed(f: Frame) {
    && Distinct(f.columns)
    && forall k | 0 <= k < |f.rows| :: f.rows[k].Keys == ColumnSet(f)
  }

  /** An empty frame with `n` rows and no columns yet. */
  function EmptyFrame(n: nat): (f: Frame)
    ensures WellFormed(f) && |f.rows| == n && f.columns == []
  {
    Frame([], seq(n, _ => map[]))
  }

  /** The cells of one column, top to bottom (`df[name]`). */
  function Column(f: Frame, name: string): (col: seq<Cell>)
    requires WellFormed(f) && name in f.columns
    ensures |col| == |f.rows|
    ensures forall k | 0 <= k < |col| :: col[k] == f.rows[k][name]
  {
    seq(|f.rows|, k requires 0 <= k < |f.rows| => f.rows[k][name])
  }

  /** A scalar broadcast down a column (`df[name] = value`). */
  function Broadcast(n: nat, value: Cell): (col: seq<Cell>)
    ensures |col| == n && forall k | 0 <= k < n :: col[k] == value
  {
    seq(n, _ => value)
  }

  /** Column assignment `df[name] = values`: an existing column keeps its
      position and gets new cells; a new column is appended at the end. */
  function WithColumn(f: Frame, name: string, values: seq<Cell>): (r: Frame)
    requires WellFormed(f) && |values| == |f.rows|
    ensures WellFormed(r)
    ensures r.columns == if name in f.columns then f.columns else f.columns + [name]
    ensures |r.rows| == |f.rows|
    ensures forall k | 0 <= k < |r.rows| :: r.rows[k] == f.rows[k][name := values[k]]
  {
    var cols := if name in f.columns then f.columns else f.columns + [name];
    assert ColumnSet(Frame(cols, f.rows)) == ColumnSet(f) + {name};
    Frame(cols, seq(|f.rows|, k requires 0 <= k < |f.rows| => f.rows[k][name := values[k]]))
  }

  /** Python's `str()` of a cell value, as used in f-strings. A missing
      value read from a CSV file is the float `NaN`, which renders as `nan`. */
  function Render(c: Cell): (r: string)
    ensures c.Text? ==> r == c.s
    ensures c.Null? ==> r == "nan"
  {
    match c
    case Null => "nan"
    case Text(s) => s
    case Flag(b) => if b then "True" else "False"
  }
}
