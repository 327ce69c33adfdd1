/**
 * The part of a pandas DataFrame the listing store relies on: named columns, rows of cells,
 * setting a whole column, boolean-mask selection and `pd.concat`.
 */
module Frames {
  import opened Seqs

  /** One cell: NaN/None/NaT, text, a number, or a calendar day (dates are compared as integers). */
  datatype Cell = Null | Str(s: string) | Num(x: real) | Day(d: int)

  /** A row maps column names to cells; a column the row does not mention holds `Null`. */
  type Row = map<string, Cell>

  /** `row.get(c)`: the cell of column `c`, `Null` when the row has none. */
  function Get(r: Row, c: string): Cell
  {
    if c in r then r[c] else Null
  }

  /** The value of a DataFrame: its column labels in order and its rows in order. */
  datatype Table = Table(columns: seq<string>, rows: seq<Row>)
  {
    /** `df.empty`: no rows or no columns. */
    predicate IsEmpty()
    {
      |rows| == 0 || |columns| == 0
    }
  }

  /** The frame `pd.DataFrame(columns=cols)`: the given columns and no rows. */
  function EmptyTable(cols: seq<string>): (t: Table)
    ensures t.IsEmpty() && t.columns == cols
  {
    Table(cols, [])
  }

  /** `df[c] = v`: column `c` (appended when new) set to `v` in every row. */
  function SetColumn(t: Table, c: string, v: Cell): (r: Table)
    ensures r.columns == if c in t.columns then t.columns else t.columns + [c]
    ensures |r.rows| == |t.rows|
    ensures forall i, c' :: 0 <= i < |t.rows| ==> Get(r.rows[i], c') == if c' == c then v else Get(t.rows[i], c')
  {
    Table(if c in t.columns then t.columns else t.columns + [c], SetAll(t.rows, c, v))
  }

  function SetAll(rows: seq<Row>, c: string, v: Cell): (r: seq<Row>)
    ensures |r| == |rows|
    ensures forall i :: 0 <= i < |rows| ==> r[i] == rows[i][c := v]
  {
    if rows == [] then [] else [rows[0][c := v]] + SetAll(rows[1..], c, v)
  }

  /** The columns with `c` appended when it is new. */
  function WithColumn(columns: seq<string>, c: string): seq<string>
  {
    if columns == [] then [c]
    else if columns[0] == c then columns
    else [columns[0]] + WithColumn(columns[1..], c)
  }

  lemma {:induction false} WithColumnAppends(columns: seq<string>, c: string)
    ensures WithColumn(columns, c) == if c in columns then columns else columns + [c]
  {
    if columns != [] && columns[0] != c {
      WithColumnAppends(columns[1..], c);
      assert columns == [columns[0]] + columns[1..];
    }
  }

  /** `df.at[i, c] = v`: the one cell of row `i` in column `c` (appended when new) set to `v`. */
  function SetCell(t: Table, i: nat, c: string, v: Cell): (r: Table)
    requires i < |t.rows|
    ensures |r.rows| == |t.rows|
  {
    Table(WithColumn(t.columns, c), t.rows[i := t.rows[i][c := v]])
  }

  /** Setting a cell adds its column when it is new and keeps every other column. */
  lemma SetCellColumns(t: Table, i: nat, c: string, v: Cell)
    requires i < |t.rows|
    ensures SetCell(t, i, c, v).columns == if c in t.columns then t.columns else t.columns + [c]
  {
    WithColumnAppends(t.columns, c);
  }

  /** Setting one cell changes that cell and no other. */
  lemma SetCellCells(t: Table, i: nat, c: string, v: Cell)
    requires i < |t.rows|
    ensures forall j, c' :: 0 <= j < |t.rows| ==>
      Get(SetCell(t, i, c, v).rows[j], c') == if j == i && c' == c then v else Get(t.rows[j], c')
  {
  }

  /** `df[c] = df.apply(f, axis=1)` and `df[c] = df[d].apply(g)`: column `c` (appended when new) set to `f` of each row. */
  function MapColumn(t: Table, c: string, f: Row -> Cell): (r: Table)
    ensures r.columns == if c in t.columns then t.columns else t.columns + [c]
    ensures t.columns <= r.columns && forall c' :: c' in r.columns <==> c' in t.columns || c' == c
    ensures |r.rows| == |t.rows|
    ensures forall i, c' :: 0 <= i < |t.rows| ==> Get(r.rows[i], c') == if c' == c then f(t.rows[i]) else Get(t.rows[i], c')
  {
    Table(if c in t.columns then t.columns else t.columns + [c], MapRows(t.rows, c, f))
  }

  function MapRows(rows: seq<Row>, c: string, f: Row -> Cell): (r: seq<Row>)
    ensures |r| == |rows|
    ensures forall i :: 0 <= i < |rows| ==> r[i] == rows[i][c := f(rows[i])]
  {
    if rows == [] then [] else [rows[0][c := f(rows[0])]] + MapRows(rows[1..], c, f)
  }

  /** `df[mask]` for a row predicate: the rows that satisfy it, in order, with the same columns. */
  function Select(t: Table, keep: Row -> bool): (r: Table)
    ensures r.columns == t.columns
  {
    Table(t.columns, Filter(t.rows, keep))
  }

  /** The column labels of `pd.concat([a, b])`: those of `a`, then those only `b` has. */
  function ColumnUnion(a: seq<string>, b: seq<string>): (r: seq<string>)
    ensures a <= r
    ensures forall c :: c in r <==> c in a || c in b
  {
    FilterElements(b, c => c !in a);
    a + Filter(b, c => c !in a)
  }

  /** `pd.concat([a, b], ignore_index=True)`: the rows of `a` then those of `b`; absent cells read `Null`. */
  function Concat(a: Table, b: Table): (r: Table)
    ensures r.rows == a.rows + b.rows
    ensures forall c :: c in r.columns <==> c in a.columns || c in b.columns
  {
    Table(ColumnUnion(a.columns, b.columns), a.rows + b.rows)
  }

  /** The number of rows whose cell in column `c` satisfies `p`. */
  function CountWhere(rows: seq<Row>, c: string, p: Cell -> bool): (n: nat)
    ensures n <= |rows|
  {
    if rows == [] then 0 else (if p(Get(rows[0], c)) then 1 else 0) + CountWhere(rows[1..], c, p)
  }

  /** Rows whose cell fails `p` and rows whose cell satisfies it together make up all rows. */
  lemma {:induction false} CountWhereComplement(rows: seq<Row>, c: string, p: Cell -> bool)
    ensures CountWhere(rows, c, p) + CountWhere(rows, c, x => !p(x)) == |rows|
  {
    if rows != [] {
      CountWhereComplement(rows[1..], c, p);
    }
  }

  /** The positions of the rows whose cell in column `c` satisfies `p`. */
  ghost function Where(rows: seq<Row>, c: string, p: Cell -> bool): set<int>
  {
    set i | 0 <= i < |rows| && p(Get(rows[i], c))
  }

  /** Counting two pieces of a table one after the other counts the whole. */
  lemma {:induction false} CountWhereAppend(a: seq<Row>, b: seq<Row>, c: string, p: Cell -> bool)
    ensures CountWhere(a + b, c, p) == CountWhere(a, c, p) + CountWhere(b, c, p)
  {
    if a == [] {
      assert a + b == b;
    } else {
      assert (a + b)[0] == a[0] && (a + b)[1..] == a[1..] + b;
      CountWhereAppend(a[1..], b, c, p);
    }
  }

  /** `CountWhere` is the number of rows a boolean mask `df[c] satisfies p` selects. */
  lemma {:induction false} CountWhereRows(rows: seq<Row>, c: string, p: Cell -> bool)
    ensures CountWhere(rows, c, p) == |Where(rows, c, p)|
  {
    if rows != [] {
      var n := |rows| - 1;
      assert rows == rows[..n] + [rows[n]];
      CountWhereRows(rows[..n], c, p);
      CountWhereAppend(rows[..n], [rows[n]], c, p);
      WhereLast(rows, c, p);
    }
  }

  /** The last row adds its own position to the selection, or nothing. */
  lemma WhereLast(rows: seq<Row>, c: string, p: Cell -> bool)
    requires rows != []
    ensures |Where(rows, c, p)| == |Where(rows[..|rows| - 1], c, p)| + (if p(Get(rows[|rows| - 1], c)) then 1 else 0)
  {
    var n := |rows| - 1;
    var front := rows[..n];
    var last: set<int> := if p(Get(rows[n], c)) then {n} else {};
    forall i | 0 <= i < n
      ensures rows[i] == front[i]
    {
    }
    assert Where(rows, c, p) == Where(front, c, p) + last;
    assert |Where(front, c, p) + last| == |Where(front, c, p)| + |last|;
  }

  /** The column names of a list of (column, default value) pairs. */
  function Names(defaults: seq<(string, Cell)>): (ns: seq<string>)
    ensures |ns| == |defaults| && forall k :: 0 <= k < |defaults| ==> ns[k] == defaults[k].0
  {
    seq(|defaults|, k requires 0 <= k < |defaults| => defaults[k].0)
  }

  /**
   * `for col, default in defaults: if col not in df.columns: df[col] = default`, as a value:
   * the pairs are taken in order and each adds its column only when the table lacks it.
   */
  function AddMissing(t: Table, defaults: seq<(string, Cell)>): (r: Table)
    requires NoDup(Names(defaults))
    ensures t.columns <= r.columns && |r.rows| == |t.rows|
    ensures forall k :: 0 <= k < |defaults| ==> defaults[k].0 in r.columns
    ensures forall c :: c in r.columns ==> c in t.columns || c in Names(defaults)
    ensures forall i, c :: 0 <= i < |t.rows| && c in t.columns ==> Get(r.rows[i], c) == Get(t.rows[i], c)
    ensures forall i, k :: 0 <= i < |t.rows| && 0 <= k < |defaults| && defaults[k].0 !in t.columns ==>
              Get(r.rows[i], defaults[k].0) == defaults[k].1
    decreases |defaults|
  {
    if defaults == [] then t
    else
      var n := |defaults| - 1;
      var prefix := defaults[..n];
      assert Names(prefix) == Names(defaults)[..n];
      var t' := AddMissing(t, prefix);
      var (c, v) := defaults[n];
      assert c !in Names(prefix);
      var r := if c in t'.columns then t' else SetColumn(t', c, v);
      assert forall k :: 0 <= k < n ==> prefix[k] == defaults[k];
      assert c !in t.columns ==> c !in t'.columns;
      r
  }

  /** One pair's effect: its column exists afterwards, and holds the default in every row where it was added. */
  lemma AddMissingAt(t: Table, defaults: seq<(string, Cell)>, k: nat)
    requires NoDup(Names(defaults)) && k < |defaults|
    ensures var r := AddMissing(t, defaults);
      && defaults[k].0 in r.columns
      && (defaults[k].0 !in t.columns ==> forall i :: 0 <= i < |t.rows| ==> Get(r.rows[i], defaults[k].0) == defaults[k].1)
  {
  }

  /** Taking one more pair: the column is added unless the table built so far has it. */
  lemma AddMissingStep(t: Table, defaults: seq<(string, Cell)>, k: nat)
    requires NoDup(Names(defaults)) && k < |defaults|
    ensures NoDup(Names(defaults[..k])) && NoDup(Names(defaults[..k + 1]))
    ensures var t' := AddMissing(t, defaults[..k]);
      AddMissing(t, defaults[..k + 1]) ==
        if defaults[k].0 in t'.columns then t' else SetColumn(t', defaults[k].0, defaults[k].1)
  {
    assert Names(defaults[..k]) == Names(defaults)[..k];
    assert Names(defaults[..k + 1]) == Names(defaults)[..k + 1];
    assert defaults[..k + 1][..k] == defaults[..k];
  }

  /** A DataFrame object that callers share and update in place. */
  class Frame {
    var columns: seq<string>
    var rows: seq<Row>

    constructor (t: Table)
      ensures Value() == t
    {
      columns := t.columns;
      rows := t.rows;
    }

    function Value(): Table
      reads this
    {
      Table(columns, rows)
    }

    /**
     * `for col, default in defaults: if col not in df.columns: df[col] = default` on this frame:
     * the pairs are taken in order, each adding its column only when the frame lacks it.
     */
    method AddMissingInPlace(defaults: seq<(string, Cell)>)
      requires NoDup(Names(defaults))
      modifies this
      ensures Value() == AddMissing(old(Value()), defaults)
    {
      var k := 0;
      while k < |defaults|
        invariant 0 <= k <= |defaults|
        invariant Value() == AddMissing(old(Value()), defaults[..k])
      {
        var (c, v) := defaults[k];
        AddMissingStep(old(Value()), defaults, k);
        if c !in columns {
          SetColumnInPlace(c, v);
        }
        k := k + 1;
      }
      assert defaults[..k] == defaults;
    }

    /** `df[c] = v` on this frame. */
    method SetColumnInPlace(c: string, v: Cell)
      modifies this
      ensures Value() == SetColumn(old(Value()), c, v)
    {
      if c !in columns {
        columns := columns + [c];
      }
      rows := SetAll(rows, c, v);
    }

    /** `df[c] = df.apply(f, axis=1)` on this frame. */
    method MapColumnInPlace(c: string, f: Row -> Cell)
      modifies this
      ensures Value() == MapColumn(old(Value()), c, f)
    {
      if c !in columns {
        columns := columns + [c];
      }
      rows := MapRows(rows, c, f);
    }

    /** `df.at[i, c] = v` on this frame. */
    method SetCellInPlace(i: nat, c: string, v: Cell)
      requires i < |rows|
      modifies this
      ensures Value() == SetCell(old(Value()), i, c, v)
    {
      WithColumnAppends(columns, c);
      if c !in columns {
        columns := columns + [c];
      }
      rows := rows[i := rows[i][c := v]];
    }
  }
}
