/**
 * The slice of pandas DataFrame behaviour the survey pipeline relies on.
 * A frame is a list of column names and a list of rows, each row holding one
 * cell per column; cells are looked up by column name. Null is pandas' NaN.
 */
module Frames {
  import opened Wrappers

  datatype Cell = Null | Str(text: string) | Int(value: int) | Bool(flag: bool)

  type Row = seq<Cell>

  datatype Frame = Frame(columns: seq<string>, rows: seq<Row>)

  /**
   * The pandas errors the pipeline can raise: a KeyError listing column labels
   * that are not in the frame, or a ValueError from assigning several columns
   * to the single column label `column`.
   */
  datatype FrameError = KeyError(missing: seq<string>) | ValueError(column: string)

  /** Decimal digits of a natural number, most significant first. */
  function Digits(n: nat): string
    decreases n
  {
    (if n < 10 then "" else Digits(n / 10)) + [(n % 10 + '0' as int) as char]
  }

  /** Python's `str(cell)`; a null cell (NaN) prints as "nan". */
  function CellText(c: Cell): string {
    match c
    case Null => "nan"
    case Str(s) => s
    case Int(n) => if n < 0 then "-" + Digits(-n) else Digits(n)
    case Bool(b) => if b then "True" else "False"
  }

  predicate Distinct(names: seq<string>) {
    forall i, j :: 0 <= i < j < |names| ==> names[i] != names[j]
  }

  /** Column labels are unique and every row has one cell per column. */
  predicate WellFormed(f: Frame) {
    Distinct(f.columns) && forall i :: 0 <= i < |f.rows| ==> |f.rows[i]| == |f.columns|
  }

  /** Position of the first occurrence of `name`. */
  function IndexOf(names: seq<string>, name: string): (k: nat)
    requires name in names
    ensures k < |names| && names[k] == name
    ensures forall j :: 0 <= j < k ==> names[j] != name
  {
    if names[0] == name then 0 else 1 + IndexOf(names[1..], name)
  }

  lemma IndexOfDistinct(names: seq<string>, k: nat)
    requires Distinct(names) && k < |names|
    ensures IndexOf(names, names[k]) == k
  {
  }

  /** `row[name]`: the cell of `row` in column `name`. */
  function Lookup(columns: seq<string>, row: Row, name: string): Cell
    requires name in columns && |row| == |columns|
  {
    row[IndexOf(columns, name)]
  }

  /** `mapping.get(name, name)`. */
  function Renamed(mapping: map<string, string>, name: string): string {
    if name in mapping then mapping[name] else name
  }

  /**
   * The renaming of rename_df_index_and_columns: as many names as before, in
   * the same order, each mapped name replaced and every other name kept.
   */
  function RenameNames(mapping: map<string, string>, names: seq<string>): (r: seq<string>)
    ensures |r| == |names|
    ensures forall i :: 0 <= i < |names| ==> r[i] == Renamed(mapping, names[i])
  {
    if names == [] then [] else [Renamed(mapping, names[0])] + RenameNames(mapping, names[1..])
  }

  /** Names the mapping does not mention are left alone. */
  lemma RenameNamesUnmapped(mapping: map<string, string>, names: seq<string>)
    requires forall n :: n in names ==> n !in mapping
    ensures RenameNames(mapping, names) == names
  {
  }

  /** `df.rename(columns=mapping)`: new labels, same cells. */
  function RenameFrame(mapping: map<string, string>, f: Frame): (r: Frame)
    ensures r.rows == f.rows && r.columns == RenameNames(mapping, f.columns)
  {
    Frame(RenameNames(mapping, f.columns), f.rows)
  }

  /** The names of `names` that are not in `present`, in their order. */
  function Absent(present: seq<string>, names: seq<string>): (r: seq<string>)
    ensures forall n :: n in r <==> n in names && n !in present
    ensures Distinct(names) ==> Distinct(r)
  {
    if names == [] then []
    else (if names[0] in present then [] else [names[0]]) + Absent(present, names[1..])
  }

  /** Labels that agree on presence in `p` and `q` are absent from both alike. */
  lemma {:induction false} AbsentSame(p: seq<string>, q: seq<string>, names: seq<string>)
    requires forall n :: n in names ==> (n in p <==> n in q)
    ensures Absent(p, names) == Absent(q, names)
  {
    if names != [] {
      assert forall n :: n in names[1..] ==> n in names;
      AbsentSame(p, q, names[1..]);
    }
  }

  lemma AbsentEmpty(present: seq<string>, names: seq<string>)
    ensures Absent(present, names) == [] <==> forall n :: n in names ==> n in present
  {
    var r := Absent(present, names);
    if r != [] {
      assert r[0] in r;
    }
  }

  /** Writes `v` at position `k`, or adds it at the end when `k` is one past the end. */
  function Put(row: Row, k: nat, v: Cell): Row
    requires k <= |row|
  {
    if k < |row| then row[k := v] else row + [v]
  }

  /**
   * `df[name] = values`, with `values` aligned row by row: an existing column
   * is overwritten in place, a new one is added as the last column, and every
   * other column keeps its cells.
   */
  function WithColumn(f: Frame, name: string, values: seq<Cell>): (r: Frame)
    requires WellFormed(f) && |values| == |f.rows|
    ensures WellFormed(r) && |r.rows| == |f.rows|
    ensures r.columns == if name in f.columns then f.columns else f.columns + [name]
    ensures forall i :: 0 <= i < |r.rows| ==> Lookup(r.columns, r.rows[i], name) == values[i]
    ensures forall i, c :: 0 <= i < |r.rows| && c in f.columns && c != name ==>
              Lookup(r.columns, r.rows[i], c) == Lookup(f.columns, f.rows[i], c)
    ensures name !in f.columns ==> forall i :: 0 <= i < |r.rows| ==> r.rows[i] == f.rows[i] + [values[i]]
  {
    var columns := if name in f.columns then f.columns else f.columns + [name];
    WithColumnLayout(f, name);
    var k := IndexOf(columns, name);
    var r := Frame(columns, seq(|f.rows|, i requires 0 <= i < |f.rows| => Put(f.rows[i], k, values[i])));
    assert WellFormed(r);
    WithColumnKeepsOthers(f, name, values, r);
    r
  }

  /**
   * `df[name] = df.apply(g, axis=1)`, where `values` are g's results row by
   * row. On a frame with rows, apply yields one value per row and the
   * assignment is `WithColumn`. On a frame without rows, apply returns a copy
   * of the frame itself, and storing a frame of other than one column under
   * the single label `name` raises a ValueError.
   */
  function AssignApplied(f: Frame, name: string, values: seq<Cell>): (r: Result<Frame, FrameError>)
    requires WellFormed(f) && |values| == |f.rows|
    ensures r.Err? <==> |f.rows| == 0 && |f.columns| != 1
    ensures r.Err? ==> r.error == ValueError(name)
    ensures r.Ok? ==> r.value == WithColumn(f, name, values)
  {
    if |f.rows| == 0 && |f.columns| != 1 then Err(ValueError(name)) else Ok(WithColumn(f, name, values))
  }

  lemma WithColumnLayout(f: Frame, name: string)
    requires WellFormed(f)
    ensures var columns := if name in f.columns then f.columns else f.columns + [name];
      Distinct(columns) && (name !in f.columns ==> IndexOf(columns, name) == |f.columns|)
  {
    var columns := if name in f.columns then f.columns else f.columns + [name];
    forall i, j | 0 <= i < j < |columns| ensures columns[i] != columns[j] {
      if j == |f.columns| {
        assert columns[i] == f.columns[i];
      }
    }
  }

  lemma WithColumnKeepsOthers(f: Frame, name: string, values: seq<Cell>, r: Frame)
    requires WellFormed(f) && |values| == |f.rows| && WellFormed(r)
    requires r.columns == if name in f.columns then f.columns else f.columns + [name]
    requires |r.rows| == |f.rows|
    requires forall i :: 0 <= i < |r.rows| ==> r.rows[i] == Put(f.rows[i], IndexOf(r.columns, name), values[i])
    ensures forall i, c :: 0 <= i < |r.rows| && c in f.columns && c != name ==>
              Lookup(r.columns, r.rows[i], c) == Lookup(f.columns, f.rows[i], c)
  {
    forall i, c | 0 <= i < |r.rows| && c in f.columns && c != name
      ensures Lookup(r.columns, r.rows[i], c) == Lookup(f.columns, f.rows[i], c)
    {
      var j := IndexOf(f.columns, c);
      assert r.columns[j] == c;
      IndexOfDistinct(r.columns, j);
    }
  }

  /** The cells of `row` for `names`, in that order. */
  function Project(columns: seq<string>, row: Row, names: seq<string>): Row
    requires |row| == |columns| && forall n :: n in names ==> n in columns
  {
    seq(|names|, k requires 0 <= k < |names| => Lookup(columns, row, names[k]))
  }

  /**
   * `df[names]`: a frame with exactly the columns `names`, in that order, and
   * the same rows, or a KeyError listing every requested label that is absent.
   */
  function Select(f: Frame, names: seq<string>): (r: Result<Frame, FrameError>)
    requires WellFormed(f)
    ensures r.Err? <==> exists n :: n in names && n !in f.columns
    ensures r.Err? ==> r.error.KeyError? && forall n :: n in r.error.missing <==> n in names && n !in f.columns
    ensures r.Ok? ==> r.value.columns == names && |r.value.rows| == |f.rows|
    ensures r.Ok? ==> forall i :: 0 <= i < |f.rows| ==> |r.value.rows[i]| == |names|
    ensures r.Ok? ==> forall i, k :: 0 <= i < |f.rows| && 0 <= k < |names| ==>
              r.value.rows[i][k] == Lookup(f.columns, f.rows[i], names[k])
    ensures r.Ok? && Distinct(names) ==> WellFormed(r.value)
  {
    var missing := Absent(f.columns, names);
    assert missing != [] ==> missing[0] in missing;
    if missing != [] then
      Err(KeyError(missing))
    else
      Ok(Frame(names, seq(|f.rows|, i requires 0 <= i < |f.rows| => Project(f.columns, f.rows[i], names))))
  }

  /** The KeyError of a failed `df[names]` lists the absent labels in request order. */
  lemma SelectMissing(f: Frame, names: seq<string>)
    requires WellFormed(f)
    ensures Select(f, names).Err? ==> Select(f, names).error == KeyError(Absent(f.columns, names))
  {
  }

  /** A row laid out for the columns `to`; a label it does not have gets a null cell. */
  function Reindex(from: seq<string>, row: Row, to: seq<string>): Row
    requires |row| == |from|
  {
    seq(|to|, k requires 0 <= k < |to| => if to[k] in from then Lookup(from, row, to[k]) else Null)
  }

  lemma ReindexSame(columns: seq<string>, row: Row)
    requires Distinct(columns) && |row| == |columns|
    ensures Reindex(columns, row, columns) == row
  {
    forall k | 0 <= k < |columns| ensures Reindex(columns, row, columns)[k] == row[k] {
      IndexOfDistinct(columns, k);
    }
  }

  lemma DistinctJoin(a: seq<string>, b: seq<string>)
    requires Distinct(a) && Distinct(b)
    requires forall n :: n in b ==> n !in a
    ensures Distinct(a + b)
  {
    forall i, j | 0 <= i < j < |a + b| ensures (a + b)[i] != (a + b)[j] {
      if i < |a| && |a| <= j {
        assert (a + b)[j] in b;
      }
    }
  }

  /** Every row of `f` laid out under `columns`. */
  function ReindexAll(f: Frame, columns: seq<string>): (rows: seq<Row>)
    requires WellFormed(f)
    ensures |rows| == |f.rows|
  {
    seq(|f.rows|, i requires 0 <= i < |f.rows| => Reindex(f.columns, f.rows[i], columns))
  }

  /**
   * `a.append(b)`: all rows of `a`, then all rows of `b`, over the union of
   * the two label lists (those of `a` first); a row gets null cells for the
   * labels its own frame lacks (AppendLookups). Frames with the same labels
   * simply stack.
   */
  function Append(a: Frame, b: Frame): (r: Frame)
    requires WellFormed(a) && WellFormed(b)
    ensures WellFormed(r)
    ensures r.columns == a.columns + Absent(a.columns, b.columns)
    ensures |r.rows| == |a.rows| + |b.rows|
    ensures a.columns == b.columns ==> r.rows == a.rows + b.rows
  {
    var columns := a.columns + Absent(a.columns, b.columns);
    DistinctJoin(a.columns, Absent(a.columns, b.columns));
    var top, bottom := ReindexAll(a, columns), ReindexAll(b, columns);
    AppendSameColumns(a, b, columns, top, bottom);
    ReindexLookups(a, columns, top);
    ReindexLookups(b, columns, bottom);
    Frame(columns, top + bottom)
  }

  /** Each cell of an appended frame comes from its own row, or is null where its frame lacks the label. */
  lemma AppendLookups(a: Frame, b: Frame)
    requires WellFormed(a) && WellFormed(b)
    ensures var r := Append(a, b);
      forall i, c :: 0 <= i < |a.rows| && c in r.columns ==>
        Lookup(r.columns, r.rows[i], c) == if c in a.columns then Lookup(a.columns, a.rows[i], c) else Null
    ensures var r := Append(a, b);
      forall i, c :: 0 <= i < |b.rows| && c in r.columns ==>
        Lookup(r.columns, r.rows[|a.rows| + i], c) == if c in b.columns then Lookup(b.columns, b.rows[i], c) else Null
  {
    var columns := a.columns + Absent(a.columns, b.columns);
    DistinctJoin(a.columns, Absent(a.columns, b.columns));
    var top, bottom := ReindexAll(a, columns), ReindexAll(b, columns);
    ReindexLookups(a, columns, top);
    ReindexLookups(b, columns, bottom);
    assert Append(a, b) == Frame(columns, top + bottom);
    assert forall i :: 0 <= i < |bottom| ==> (top + bottom)[|top| + i] == bottom[i];
  }

  lemma ReindexLookups(f: Frame, columns: seq<string>, rows: seq<Row>)
    requires WellFormed(f) && Distinct(columns)
    requires |rows| == |f.rows| && forall i :: 0 <= i < |f.rows| ==> rows[i] == Reindex(f.columns, f.rows[i], columns)
    ensures forall i :: 0 <= i < |rows| ==> |rows[i]| == |columns|
    ensures forall i, c :: 0 <= i < |rows| && c in columns ==>
              Lookup(columns, rows[i], c) == if c in f.columns then Lookup(f.columns, f.rows[i], c) else Null
  {
  }

  lemma AbsentOfPresent(present: seq<string>, names: seq<string>)
    requires forall n :: n in names ==> n in present
    ensures Absent(present, names) == []
  {
  }

  lemma AppendSameColumns(a: Frame, b: Frame, columns: seq<string>, top: seq<Row>, bottom: seq<Row>)
    requires WellFormed(a) && WellFormed(b) && columns == a.columns + Absent(a.columns, b.columns)
    requires |top| == |a.rows| && forall i :: 0 <= i < |a.rows| ==> top[i] == Reindex(a.columns, a.rows[i], columns)
    requires |bottom| == |b.rows| && forall i :: 0 <= i < |b.rows| ==> bottom[i] == Reindex(b.columns, b.rows[i], columns)
    ensures a.columns == b.columns ==> top == a.rows && bottom == b.rows
  {
    if a.columns == b.columns {
      AbsentOfPresent(a.columns, b.columns);
      assert columns == a.columns;
      ReindexAllSame(a, top);
      ReindexAllSame(b, bottom);
    }
  }

  lemma ReindexAllSame(f: Frame, rows: seq<Row>)
    requires WellFormed(f) && |rows| == |f.rows|
    requires forall i :: 0 <= i < |f.rows| ==> rows[i] == Reindex(f.columns, f.rows[i], f.columns)
    ensures rows == f.rows
  {
    forall i | 0 <= i < |f.rows| ensures rows[i] == f.rows[i] {
      ReindexSame(f.columns, f.rows[i]);
    }
  }

  /** The row tests the frame filters use. */
  datatype Criterion =
    | EqualAt(k: nat, v: Cell)  // the cell at `k` equals `v`
    | NoNullAt(ks: seq<nat>)    // none of the cells at `ks` is null

  predicate Satisfies(row: Row, c: Criterion) {
    match c
    case EqualAt(k, v) => k < |row| && row[k] == v
    case NoNullAt(ks) => forall j :: 0 <= j < |ks| ==> ks[j] < |row| && row[ks[j]] != Null
  }

  /** The two-column form of NoNullAt, the one `dropna` on two labels uses. */
  lemma NoNullAtTwo(row: Row, a: nat, b: nat)
    ensures Satisfies(row, NoNullAt([a, b])) <==> a < |row| && b < |row| && row[a] != Null && row[b] != Null
  {
    var ks := [a, b];
    if a < |row| && b < |row| && row[a] != Null && row[b] != Null {
      forall j | 0 <= j < |ks| ensures ks[j] < |row| && row[ks[j]] != Null {
        assert j == 0 || j == 1;
      }
    } else {
      assert !(ks[0] < |row| && row[ks[0]] != Null) || !(ks[1] < |row| && row[ks[1]] != Null);
    }
  }

  /** The rows that pass `c`, in their original order. */
  function Keep(rows: seq<Row>, c: Criterion): (r: seq<Row>)
    ensures |r| <= |rows|
    ensures forall x :: x in r <==> x in rows && Satisfies(x, c)
  {
    if rows == [] then []
    else (if Satisfies(rows[0], c) then [rows[0]] else []) + Keep(rows[1..], c)
  }

  /** Filtering commutes with concatenation, so it is exactly an order-preserving selection. */
  lemma {:induction false} KeepConcat(a: seq<Row>, b: seq<Row>, c: Criterion)
    ensures Keep(a + b, c) == Keep(a, c) + Keep(b, c)
  {
    if a != [] {
      assert (a + b)[0] == a[0] && (a + b)[1..] == a[1..] + b;
      KeepConcat(a[1..], b, c);
      var head := if Satisfies(a[0], c) then [a[0]] else [];
      assert Keep(a + b, c) == head + (Keep(a[1..], c) + Keep(b, c));
      assert Keep(a, c) == head + Keep(a[1..], c);
    } else {
      assert a + b == b;
    }
  }

  /** How many rows pass `c`: the length of the filtered rows, counted one row at a time. */
  function Count(rows: seq<Row>, c: Criterion): nat {
    if rows == [] then 0 else (if Satisfies(rows[0], c) then 1 else 0) + Count(rows[1..], c)
  }

  lemma {:induction false} CountIsKeep(rows: seq<Row>, c: Criterion)
    ensures Count(rows, c) == |Keep(rows, c)|
  {
    if rows != [] {
      CountIsKeep(rows[1..], c);
    }
  }

  /** `df[df[name] == v]`: the rows whose cell in column `name` equals `v`, in order. */
  function WhereEqual(f: Frame, name: string, v: Cell): (r: Frame)
    requires WellFormed(f) && name in f.columns
    ensures WellFormed(r) && r.columns == f.columns
    ensures forall x :: x in r.rows <==> x in f.rows && Lookup(f.columns, x, name) == v
  {
    var r := Frame(f.columns, Keep(f.rows, EqualAt(IndexOf(f.columns, name), v)));
    assert forall x :: x in f.rows ==> |x| == |f.columns|;
    r
  }

  /** `df[df[name]]`: a boolean column used as a mask keeps the rows where it is True. */
  function WhereTrue(f: Frame, name: string): (r: Frame)
    requires WellFormed(f) && name in f.columns
    ensures WellFormed(r) && r.columns == f.columns
    ensures forall x :: x in r.rows <==> x in f.rows && Lookup(f.columns, x, name) == Bool(true)
  {
    WhereEqual(f, name, Bool(true))
  }

  /** Positions of the labels `names`. */
  function Positions(columns: seq<string>, names: seq<string>): (ks: seq<nat>)
    requires forall n :: n in names ==> n in columns
    ensures |ks| == |names|
    ensures forall j :: 0 <= j < |names| ==> ks[j] < |columns| && columns[ks[j]] == names[j]
  {
    seq(|names|, j requires 0 <= j < |names| => IndexOf(columns, names[j]))
  }

  /**
   * `df.dropna(subset=names)` with pandas' default `how='any'`: a row is
   * removed as soon as one of the listed cells is null.
   */
  function DropNa(f: Frame, names: seq<string>): (r: Frame)
    requires WellFormed(f) && forall n :: n in names ==> n in f.columns
    ensures WellFormed(r) && r.columns == f.columns
    ensures forall x :: x in r.rows <==>
              x in f.rows && forall n :: n in names ==> Lookup(f.columns, x, n) != Null
  {
    var ks := Positions(f.columns, names);
    PositionsMeanNoNull(f, names, ks);
    assert forall x :: x in f.rows ==> |x| == |f.columns|;
    Frame(f.columns, Keep(f.rows, NoNullAt(ks)))
  }

  lemma PositionsMeanNoNull(f: Frame, names: seq<string>, ks: seq<nat>)
    requires WellFormed(f) && forall n :: n in names ==> n in f.columns
    requires ks == Positions(f.columns, names)
    ensures forall x :: x in f.rows ==>
              (Satisfies(x, NoNullAt(ks)) <==> forall n :: n in names ==> Lookup(f.columns, x, n) != Null)
  {
    forall j | 0 <= j < |names| ensures IndexOf(f.columns, names[j]) == ks[j] {
      IndexOfDistinct(f.columns, ks[j]);
    }
    forall x | x in f.rows
      ensures Satisfies(x, NoNullAt(ks)) <==> forall n :: n in names ==> Lookup(f.columns, x, n) != Null
    {
      if Satisfies(x, NoNullAt(ks)) {
        forall n | n in names ensures Lookup(f.columns, x, n) != Null {
          var j :| 0 <= j < |names| && names[j] == n;
        }
      } else if forall n :: n in names ==> Lookup(f.columns, x, n) != Null {
        forall j | 0 <= j < |ks| ensures ks[j] < |x| && x[ks[j]] != Null {
          assert names[j] in names;
        }
      }
    }
  }
}
