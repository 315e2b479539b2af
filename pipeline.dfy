/**
 * process_survey_data.main(): the five yearly survey exports are reconciled
 * to one four-column schema, stacked, restricted to data-science roles,
 * enriched with six language indicators and cleaned of rows with a null
 * language field. Reading and writing the CSV files is not modelled: the
 * method takes the five frames and returns the processed one.
 */
module SurveyPipeline {
  import opened Wrappers
  import opened Classifiers
  import opened Frames

  /** The schema every year is reconciled to. */
  const CanonicalColumns: seq<string> := ["Year", "DevType", "LanguageHaveWorkedWith", "LanguageWantToWorkWith"]

  /** What the 2018, 2019 and 2020 exports call the four columns, and how they are renamed. */
  const Columns2018To2020: seq<string> := ["Year", "DevType", "LanguageWorkedWith", "LanguageDesireNextYear"]
  const Mapping2018To2020: map<string, string> :=
    map["LanguageWorkedWith" := "LanguageHaveWorkedWith", "LanguageDesireNextYear" := "LanguageWantToWorkWith"]

  /** What the 2017 export calls them, and how they are renamed. */
  const Columns2017: seq<string> := ["Year", "DeveloperType", "HaveWorkedLanguage", "WantWorkLanguage"]
  const Mapping2017: map<string, string> :=
    map["DeveloperType" := "DevType", "HaveWorkedLanguage" := "LanguageHaveWorkedWith",
        "WantWorkLanguage" := "LanguageWantToWorkWith"]

  /** The columns the pipeline adds, in the order it adds them. */
  const FeatureColumns: seq<string> :=
    ["IsDataScientist", "PythonWorkedWith", "RWorkedWith", "JuliaWorkedWith",
     "PythonWantWorkWith", "RWantWorkWith", "JuliaWantWorkWith"]

  /** The processed table: the canonical columns followed by the added ones. */
  const ProcessedColumns: seq<string> :=
    ["Year", "DevType", "LanguageHaveWorkedWith", "LanguageWantToWorkWith",
     "IsDataScientist", "PythonWorkedWith", "RWorkedWith", "JuliaWorkedWith",
     "PythonWantWorkWith", "RWantWorkWith", "JuliaWantWorkWith"]

  /** The two free-text language fields `dropna` looks at. */
  const LanguageFields: seq<string> := ["LanguageHaveWorkedWith", "LanguageWantToWorkWith"]

  /** The three layouts name four distinct columns, and both mappings lead to the canonical schema. */
  lemma SourceLayouts()
    ensures Distinct(CanonicalColumns) && Distinct(Columns2018To2020) && Distinct(Columns2017)
    ensures RenameNames(Mapping2018To2020, Columns2018To2020) == CanonicalColumns
    ensures RenameNames(Mapping2017, Columns2017) == CanonicalColumns
  {
    assert "LanguageHaveWorkedWith"[8] != "LanguageWantToWorkWith"[8];
  }

  /** The processed table's eleven labels are distinct. */
  lemma ProcessedDistinct()
    ensures Distinct(ProcessedColumns) && |ProcessedColumns| == 11
  {
    assert "LanguageHaveWorkedWith"[8] != "LanguageWantToWorkWith"[8];
    assert "IsDataScientist"[0] != "JuliaWorkedWith"[0];
    assert Distinct(ProcessedColumns);
  }

  /** The processed table starts with the canonical four columns and the role column. */
  lemma ProcessedPrefix()
    ensures ProcessedColumns == CanonicalColumns + FeatureColumns
    ensures ProcessedColumns[..4] == CanonicalColumns
    ensures ProcessedColumns[..5] == CanonicalColumns + ["IsDataScientist"]
  {
  }

  /** `df["Year"] = year`: every row is stamped with its survey year. */
  function StampYear(f: Frame, year: int): (r: Frame)
    requires WellFormed(f)
    ensures WellFormed(r) && |r.rows| == |f.rows|
    ensures r.columns == if "Year" in f.columns then f.columns else f.columns + ["Year"]
    ensures forall i :: 0 <= i < |r.rows| ==> Lookup(r.columns, r.rows[i], "Year") == Int(year)
    ensures forall i, c :: 0 <= i < |r.rows| && c in f.columns && c != "Year" ==>
              Lookup(r.columns, r.rows[i], c) == Lookup(f.columns, f.rows[i], c)
  {
    WithColumn(f, "Year", seq(|f.rows|, _ => Int(year)))
  }

  predicate HasFields(f: Frame, fields: seq<string>) {
    forall n :: n in fields ==> n in f.columns
  }

  /**
   * The rows a year contributes, in canonical order: the year, then the
   * export's cells for role, languages worked with and languages wanted.
   */
  function CanonicalRows(f: Frame, year: int, fields: seq<string>): (rows: seq<Row>)
    requires WellFormed(f) && HasFields(f, fields)
    ensures |rows| == |f.rows|
    ensures forall i :: 0 <= i < |rows| ==> |rows[i]| == 1 + |fields| && rows[i][0] == Int(year)
  {
    seq(|f.rows|, i requires 0 <= i < |f.rows| => [Int(year)] + Project(f.columns, f.rows[i], fields))
  }

  /**
   * Stamping and slicing one year's export: a KeyError exactly when the
   * export lacks one of the three fields, otherwise a frame with exactly the
   * requested four columns and one row per response, each carrying its year.
   */
  lemma SliceStamped(f: Frame, year: int, columns: seq<string>)
    requires WellFormed(f) && |columns| == 4 && columns[0] == "Year" && Distinct(columns)
    ensures var r := Select(StampYear(f, year), columns);
      && (r.Ok? <==> HasFields(f, columns[1..]))
      && (r.Ok? ==> WellFormed(r.value) && r.value.columns == columns)
      && (r.Ok? ==> r.value.rows == CanonicalRows(f, year, columns[1..]))
  {
    var stamped := StampYear(f, year);
    var r := Select(stamped, columns);
    assert forall n :: n in columns[1..] ==> n != "Year" by {
      forall k | 1 <= k < 4 ensures columns[k] != columns[0] { }
    }
    assert HasFields(stamped, columns) <==> HasFields(f, columns[1..]) by {
      assert forall n :: n in columns ==> n == "Year" || n in columns[1..];
      assert forall n :: n in stamped.columns ==> n == "Year" || n in f.columns;
    }
    if r.Ok? {
      var rows := CanonicalRows(f, year, columns[1..]);
      forall i | 0 <= i < |f.rows| ensures r.value.rows[i] == rows[i] {
        forall k | 0 <= k < 4 ensures r.value.rows[i][k] == rows[i][k] {
          if k > 0 {
            assert columns[k] == columns[1..][k - 1];
          }
        }
      }
    }
  }

  /** The role indicator of one canonical row, appended as column 4. */
  function WithRoleFlag(row: Row): Row
    requires |row| == 4
  {
    row + [Bool(CheckForDevTypes(CellText(row[1])))]
  }

  /** The six language indicators, in column order, computed from the two language cells. */
  function LanguageFlags(worked: Cell, want: Cell): seq<Cell> {
    [ Bool(CheckForLang("Python", CellText(worked))), Bool(CheckForLang("R", CellText(worked))),
      Bool(CheckForLang("Julia", CellText(worked))), Bool(CheckForLang("Python", CellText(want))),
      Bool(CheckForLang("R", CellText(want))), Bool(CheckForLang("Julia", CellText(want))) ]
  }

  function WithLanguageFlags(row: Row): Row
    requires |row| == 5
  {
    row + LanguageFlags(row[2], row[3])
  }

  /**
   * Reference definition of the processed table, one row at a time: a row is
   * kept when its role passes the data-science test and neither language
   * field is null, and is then extended by True and its six indicators.
   */
  predicate Retained(row: Row) {
    |row| == 4 && CheckForDevTypes(CellText(row[1])) && row[2] != Null && row[3] != Null
  }

  function Enriched(row: Row): Row
    requires |row| == 4
  {
    row + [Bool(true)] + LanguageFlags(row[2], row[3])
  }

  function Processed(rows: seq<Row>): seq<Row> {
    if rows == [] then []
    else (if Retained(rows[0]) then [Enriched(rows[0])] else []) + Processed(rows[1..])
  }

  /**
   * What the processed table holds: no more rows than its input, and every
   * row is a retained response, unchanged in its first four cells, with True
   * for the role and its six indicators computed from its two language cells.
   */
  lemma {:induction false} ProcessedRows(rows: seq<Row>)
    ensures |Processed(rows)| <= |rows|
    ensures forall x :: x in Processed(rows) ==>
      exists r :: r in rows && Retained(r) && x == Enriched(r)
    ensures forall r :: r in rows && Retained(r) ==> Enriched(r) in Processed(rows)
  {
    if rows != [] {
      ProcessedRows(rows[1..]);
      forall x | x in Processed(rows) ensures exists r :: r in rows && Retained(r) && x == Enriched(r) {
        if x !in Processed(rows[1..]) {
          assert rows[0] in rows;
        } else {
          var r :| r in rows[1..] && Retained(r) && x == Enriched(r);
          assert r in rows;
        }
      }
      forall r | r in rows && Retained(r) ensures Enriched(r) in Processed(rows) {
        if r != rows[0] {
          assert r in rows[1..];
        }
      }
    }
  }

  /** Rows are processed independently, so the years keep their order. */
  lemma {:induction false} ProcessedConcat(a: seq<Row>, b: seq<Row>)
    ensures Processed(a + b) == Processed(a) + Processed(b)
  {
    if a != [] {
      assert (a + b)[0] == a[0] && (a + b)[1..] == a[1..] + b;
      ProcessedConcat(a[1..], b);
    } else {
      assert a + b == b;
    }
  }

  /**
   * The labels a stamped slice misses: "Year" is always present after
   * stamping, so they are exactly the fields the export itself lacks.
   */
  lemma {:induction false} StampedAbsent(stamped: seq<string>, present: seq<string>, names: seq<string>)
    requires names != [] && names[0] in stamped
    requires forall n :: n in names[1..] ==> (n in stamped <==> n in present)
    ensures Absent(stamped, names) == Absent(present, names[1..])
  {
    AbsentSame(stamped, present, names[1..]);
  }

  predicate AllWidth(rows: seq<Row>, width: nat) {
    forall x :: x in rows ==> |x| == width
  }

  /** A row transformation applied to every row, in order (what `apply` does row by row). */
  function MapRows(rows: seq<Row>, g: Row --> Row): (r: seq<Row>)
    requires forall x :: x in rows ==> g.requires(x)
    ensures |r| == |rows|
  {
    seq(|rows|, i requires 0 <= i < |rows| => g(rows[i]))
  }

  lemma MapRowsConcat(a: seq<Row>, b: seq<Row>, g: Row --> Row)
    requires forall x :: x in a + b ==> g.requires(x)
    ensures MapRows(a + b, g) == MapRows(a, g) + MapRows(b, g)
  {
  }

  lemma MapRowsOne(x: Row, g: Row --> Row)
    requires g.requires(x)
    ensures MapRows([x], g) == [g(x)]
  {
  }

  function MapRoleFlag(rows: seq<Row>): (r: seq<Row>)
    requires AllWidth(rows, 4)
    ensures AllWidth(r, 5)
  {
    MapRows(rows, WithRoleFlag)
  }

  function MapLanguageFlags(rows: seq<Row>): (r: seq<Row>)
    requires AllWidth(rows, 5)
    ensures AllWidth(r, 11)
  {
    MapRows(rows, WithLanguageFlags)
  }

  lemma MapRoleFlagCons(x: Row, xs: seq<Row>)
    requires |x| == 4 && AllWidth(xs, 4)
    ensures MapRoleFlag([x] + xs) == [WithRoleFlag(x)] + MapRoleFlag(xs)
  {
    MapRowsConcat([x], xs, WithRoleFlag);
    MapRowsOne(x, WithRoleFlag);
  }

  lemma MapLanguageFlagsConcat(a: seq<Row>, b: seq<Row>)
    requires AllWidth(a, 5) && AllWidth(b, 5)
    ensures MapLanguageFlags(a + b) == MapLanguageFlags(a) + MapLanguageFlags(b)
  {
    MapRowsConcat(a, b, WithLanguageFlags);
  }

  lemma KeepOne(x: Row, c: Criterion)
    ensures Keep([x], c) == if Satisfies(x, c) then [x] else []
  {
    assert [x][1..] == [];
  }

  lemma RoleFilterOne(x: Row)
    requires |x| == 4
    ensures Keep([WithRoleFlag(x)], EqualAt(4, Bool(true))) == if CheckForDevTypes(CellText(x[1])) then [WithRoleFlag(x)] else []
  {
    KeepOne(WithRoleFlag(x), EqualAt(4, Bool(true)));
  }

  lemma DropNaOne(full: Row)
    requires |full| == 11
    ensures Keep([full], NoNullAt([2, 3])) == if full[2] != Null && full[3] != Null then [full] else []
  {
    KeepOne(full, NoNullAt([2, 3]));
    NoNullAtTwo(full, 2, 3);
  }

  lemma FlagsOfKeptRole(x: Row)
    requires |x| == 4 && CheckForDevTypes(CellText(x[1]))
    ensures MapLanguageFlags([WithRoleFlag(x)]) == [Enriched(x)]
    ensures Enriched(x)[2] == x[2] && Enriched(x)[3] == x[3]
  {
    var y := WithRoleFlag(x);
    assert y == x + [Bool(true)];
    assert y[2] == x[2] && y[3] == x[3];
    MapRowsOne(y, WithLanguageFlags);
  }

  /** What the staged pipeline makes of a single canonical row. */
  lemma StagesOnOneRow(x: Row)
    requires |x| == 4
    ensures Keep(MapLanguageFlags(Keep([WithRoleFlag(x)], EqualAt(4, Bool(true)))), NoNullAt([2, 3]))
            == if Retained(x) then [Enriched(x)] else []
  {
    RoleFilterOne(x);
    if CheckForDevTypes(CellText(x[1])) {
      FlagsOfKeptRole(x);
      DropNaOne(Enriched(x));
    } else {
      assert MapLanguageFlags([]) == [];
    }
  }

  /**
   * The staged pipeline (role column, role filter, six indicator columns,
   * dropna) computes exactly the one-pass reference.
   */
  lemma {:induction false} StagesMatchReference(rows: seq<Row>)
    requires AllWidth(rows, 4)
    ensures Keep(MapLanguageFlags(Keep(MapRoleFlag(rows), EqualAt(4, Bool(true)))), NoNullAt([2, 3])) == Processed(rows)
  {
    if rows != [] {
      var x, xs := rows[0], rows[1..];
      assert rows == [x] + xs;
      StagesMatchReference(xs);
      MapRoleFlagCons(x, xs);
      var head := Keep([WithRoleFlag(x)], EqualAt(4, Bool(true)));
      var tail := Keep(MapRoleFlag(xs), EqualAt(4, Bool(true)));
      KeepConcat([WithRoleFlag(x)], MapRoleFlag(xs), EqualAt(4, Bool(true)));
      MapLanguageFlagsConcat(head, tail);
      KeepConcat(MapLanguageFlags(head), MapLanguageFlags(tail), NoNullAt([2, 3]));
      StagesOnOneRow(x);
    }
  }

  /** `str(row["DevType"])` passed through check_for_dev_types, for every row. */
  function RoleSeries(f: Frame): (r: seq<Cell>)
    requires WellFormed(f) && "DevType" in f.columns
    ensures |r| == |f.rows|
  {
    seq(|f.rows|, i requires 0 <= i < |f.rows| =>
      Bool(CheckForDevTypes(CellText(Lookup(f.columns, f.rows[i], "DevType")))))
  }

  /** `str(row[field])` passed through check_for_lang(lang, ...), for every row. */
  function LanguageSeries(f: Frame, lang: string, field: string): (r: seq<Cell>)
    requires WellFormed(f) && field in f.columns
    ensures |r| == |f.rows|
  {
    seq(|f.rows|, i requires 0 <= i < |f.rows| =>
      Bool(CheckForLang(lang, CellText(Lookup(f.columns, f.rows[i], field)))))
  }

  const Fields2021: seq<string> := CanonicalColumns[1..]
  const Fields2018To2020: seq<string> := Columns2018To2020[1..]
  const Fields2017: seq<string> := Columns2017[1..]

  /** Every export has the fields its layout slices. */
  predicate AllFieldsPresent(s2021: Frame, s2020: Frame, s2019: Frame, s2018: Frame, s2017: Frame) {
    && HasFields(s2021, Fields2021) && HasFields(s2020, Fields2018To2020)
    && HasFields(s2019, Fields2018To2020) && HasFields(s2018, Fields2018To2020)
    && HasFields(s2017, Fields2017)
  }

  /**
   * The fields missing from the first export, 2021 first, that lacks any of
   * its layout's fields; empty when every export has them all.
   */
  function FirstMissing(s2021: Frame, s2020: Frame, s2019: Frame, s2018: Frame, s2017: Frame): (missing: seq<string>)
    ensures missing == [] <==> AllFieldsPresent(s2021, s2020, s2019, s2018, s2017)
  {
    if !HasFields(s2021, Fields2021) then Absent(s2021.columns, Fields2021)
    else if !HasFields(s2020, Fields2018To2020) then Absent(s2020.columns, Fields2018To2020)
    else if !HasFields(s2019, Fields2018To2020) then Absent(s2019.columns, Fields2018To2020)
    else if !HasFields(s2018, Fields2018To2020) then Absent(s2018.columns, Fields2018To2020)
    else AbsentEmpty(s2017.columns, Fields2017); Absent(s2017.columns, Fields2017)
  }

  /** The canonical rows of all five years, 2021 first, as the appends stack them. */
  function CombinedRows(s2021: Frame, s2020: Frame, s2019: Frame, s2018: Frame, s2017: Frame): seq<Row>
    requires WellFormed(s2021) && WellFormed(s2020) && WellFormed(s2019) && WellFormed(s2018) && WellFormed(s2017)
    requires AllFieldsPresent(s2021, s2020, s2019, s2018, s2017)
  {
    CanonicalRows(s2021, 2021, Fields2021) + CanonicalRows(s2020, 2020, Fields2018To2020)
    + CanonicalRows(s2019, 2019, Fields2018To2020) + CanonicalRows(s2018, 2018, Fields2018To2020)
    + CanonicalRows(s2017, 2017, Fields2017)
  }

  lemma RowsHaveWidth(f: Frame)
    requires WellFormed(f)
    ensures AllWidth(f.rows, |f.columns|)
  {
  }

  /** Adding the role column behind four columns appends each row's role indicator. */
  lemma RoleStage(f: Frame)
    requires WellFormed(f) && |f.columns| == 4 && f.columns[1] == "DevType" && "IsDataScientist" !in f.columns
    ensures AllWidth(f.rows, 4)
    ensures var r := WithColumn(f, "IsDataScientist", RoleSeries(f));
      r.columns == f.columns + ["IsDataScientist"] && r.rows == MapRoleFlag(f.rows)
  {
    RowsHaveWidth(f);
    IndexOfDistinct(f.columns, 1);
    var r := WithColumn(f, "IsDataScientist", RoleSeries(f));
    forall i | 0 <= i < |f.rows| ensures r.rows[i] == WithRoleFlag(f.rows[i]) {
      assert Lookup(f.columns, f.rows[i], "DevType") == f.rows[i][1];
    }
  }

  lemma TakeOneMore(names: seq<string>, n: nat)
    requires n < |names|
    ensures names[..n + 1] == names[..n] + [names[n]]
  {
  }

  lemma DistinctPrefix(names: seq<string>, j: nat)
    requires Distinct(names) && j < |names|
    ensures names[j] !in names[..j] && Distinct(names[..j])
  {
  }

  /**
   * One `df[[...]]` slice of a stamped export, renamed to the canonical
   * labels and appended below the combined frame.
   */
  method AppendSlice(combined: Frame, stamped: Frame, ghost survey: Frame, year: int,
                     columns: seq<string>, mapping: map<string, string>)
    returns (result: Result<Frame, FrameError>)
    requires WellFormed(combined) && combined.columns == CanonicalColumns
    requires WellFormed(survey) && stamped == StampYear(survey, year)
    requires |columns| == 4 && columns[0] == "Year" && Distinct(columns)
    requires RenameNames(mapping, columns) == CanonicalColumns
    ensures result.Err? <==> !HasFields(survey, columns[1..])
    ensures result.Err? ==> result.error == KeyError(Absent(survey.columns, columns[1..]))
    ensures result.Ok? ==> WellFormed(result.value) && result.value.columns == CanonicalColumns
    ensures result.Ok? ==> result.value.rows == combined.rows + CanonicalRows(survey, year, columns[1..])
  {
    SliceStamped(survey, year, columns);
    var sliced := Select(stamped, columns);
    if sliced.Err? {
      SelectMissing(stamped, columns);
      assert forall n :: n in columns[1..] ==> n != "Year" by {
        forall k | 1 <= k < 4 ensures columns[k] != columns[0] { }
      }
      StampedAbsent(stamped.columns, survey.columns, columns);
      return Err(sliced.error);
    }
    AppendRenamed(combined, sliced.value, mapping);
    result := Ok(Append(combined, RenameFrame(mapping, sliced.value)));
  }

  /** A slice in a layout that renames to the canonical labels stacks below the combined rows. */
  lemma AppendRenamed(combined: Frame, sliced: Frame, mapping: map<string, string>)
    requires WellFormed(combined) && combined.columns == CanonicalColumns
    requires WellFormed(sliced) && RenameNames(mapping, sliced.columns) == CanonicalColumns
    ensures var r := Append(combined, RenameFrame(mapping, sliced));
      WellFormed(r) && r.columns == CanonicalColumns && r.rows == combined.rows + sliced.rows
  {
    var renamed := RenameFrame(mapping, sliced);
    assert WellFormed(renamed);
  }

  /**
   * The `IsDataScientist` column, then the filter that keeps the rows where
   * it holds. On a combined frame without rows the assignment raises a
   * ValueError, since apply then returns a four-column frame.
   */
  method KeepDataScientists(f: Frame) returns (result: Result<Frame, FrameError>)
    requires WellFormed(f) && f.columns == CanonicalColumns
    ensures AllWidth(f.rows, 4)
    ensures result.Err? <==> f.rows == []
    ensures result.Err? ==> result.error == ValueError("IsDataScientist")
    ensures result.Ok? ==> WellFormed(result.value) && result.value.columns == CanonicalColumns + ["IsDataScientist"]
    ensures result.Ok? ==> result.value.rows == Keep(MapRoleFlag(f.rows), EqualAt(4, Bool(true)))
  {
    ProcessedDistinct();
    ProcessedPrefix();
    DistinctPrefix(ProcessedColumns, 4);
    RoleStage(f);
    var flagged := AssignApplied(f, "IsDataScientist", RoleSeries(f));
    if flagged.Err? {
      return flagged;
    }
    IndexOfDistinct(flagged.value.columns, 4);
    result := Ok(WhereTrue(flagged.value, "IsDataScientist"));
  }

  /**
   * One indicator: the series computed by the frame-wide, row-by-row
   * `df.apply(lambda x: check_for_lang(lang, str(x[field])), axis=1)`, then
   * stored as `df[name]`. The indicator `name`, processed column `n`, goes
   * behind the first `n`; `field` is processed column `k`. On a frame without
   * rows the frame-wide apply yields a copy of the frame, not a series, and
   * the assignment raises a ValueError (`AssignApplied`).
   */
  method AddIndicator(f: Frame, name: string, lang: string, field: string, ghost n: nat, ghost k: nat)
    returns (r: Result<Frame, FrameError>)
    requires k < n && 5 <= n < |ProcessedColumns| && name == ProcessedColumns[n] && field == ProcessedColumns[k]
    requires f.columns == ProcessedColumns[..n] && AllWidth(f.rows, n)
    ensures r.Err? <==> |f.rows| == 0
    ensures r.Err? ==> r.error == ValueError(name)
    ensures r.Ok? ==> |r.value.rows| == |f.rows|
    ensures r.Ok? ==> r.value.columns == ProcessedColumns[..n + 1] && r.value.rows == WithIndicator(f.rows, n, lang, k)
  {
    ProcessedDistinct();
    DistinctPrefix(ProcessedColumns, n);
    TakeOneMore(ProcessedColumns, n);
    IndicatorColumn(f, name, lang, k);
    r := AssignApplied(f, name, LanguageSeries(f, lang, field));
  }

  /** A new indicator column computed from position `k` appends one cell to every row. */
  lemma IndicatorColumn(f: Frame, name: string, lang: string, k: nat)
    requires Distinct(f.columns) && AllWidth(f.rows, |f.columns|) && k < |f.columns| && name !in f.columns
    ensures WellFormed(f)
    ensures WithColumn(f, name, LanguageSeries(f, lang, f.columns[k]))
         == Frame(f.columns + [name], WithIndicator(f.rows, |f.columns|, lang, k))
  {
    assert WellFormed(f) by {
      forall i | 0 <= i < |f.rows| ensures |f.rows[i]| == |f.columns| {
        assert f.rows[i] in f.rows;
      }
    }
    IndexOfDistinct(f.columns, k);
    var r := WithColumn(f, name, LanguageSeries(f, lang, f.columns[k]));
    var rows := WithIndicator(f.rows, |f.columns|, lang, k);
    forall i | 0 <= i < |f.rows| ensures r.rows[i] == rows[i] {
      assert Lookup(f.columns, f.rows[i], f.columns[k]) == f.rows[i][k];
    }
  }

  /** Every row of width `n` with `check_for_lang(lang, str(row[k]))` appended. */
  function WithIndicator(rows: seq<Row>, n: nat, lang: string, k: nat): (r: seq<Row>)
    requires k < n && AllWidth(rows, n)
    ensures |r| == |rows| && AllWidth(r, n + 1)
  {
    seq(|rows|, i requires 0 <= i < |rows| => rows[i] + [Bool(CheckForLang(lang, CellText(rows[i][k])))])
  }

  /** The labels at the positions the indicator assignments read and write. */
  lemma IndicatorLabels()
    ensures ProcessedColumns[2] == "LanguageHaveWorkedWith" && ProcessedColumns[3] == "LanguageWantToWorkWith"
    ensures ProcessedColumns[5] == "PythonWorkedWith" && ProcessedColumns[6] == "RWorkedWith"
    ensures ProcessedColumns[7] == "JuliaWorkedWith" && ProcessedColumns[8] == "PythonWantWorkWith"
    ensures ProcessedColumns[9] == "RWantWorkWith" && ProcessedColumns[10] == "JuliaWantWorkWith"
  {
  }

  /**
   * The three worked-with indicators, assigned in order. On a frame without
   * rows the first assignment raises a ValueError.
   */
  method AddWorkedIndicators(f: Frame) returns (r: Result<Frame, FrameError>)
    requires f.columns == ProcessedColumns[..5] && AllWidth(f.rows, 5)
    ensures r.Err? <==> |f.rows| == 0
    ensures r.Err? ==> r.error == ValueError("PythonWorkedWith")
    ensures r.Ok? ==> r.value.columns == ProcessedColumns[..8]
    ensures r.Ok? ==> r.value.rows == WithIndicator(WithIndicator(WithIndicator(f.rows, 5, "Python", 2), 6, "R", 2), 7, "Julia", 2)
  {
    IndicatorLabels();
    r := AddIndicator(f, "PythonWorkedWith", "Python", "LanguageHaveWorkedWith", 5, 2);
    if r.Err? {
      return;
    }
    r := AddIndicator(r.value, "RWorkedWith", "R", "LanguageHaveWorkedWith", 6, 2);
    assert r.Ok?;
    r := AddIndicator(r.value, "JuliaWorkedWith", "Julia", "LanguageHaveWorkedWith", 7, 2);
  }

  /**
   * The three want-to-work-with indicators, assigned in order. On a frame
   * without rows the first assignment raises a ValueError.
   */
  method AddWantIndicators(f: Frame) returns (r: Result<Frame, FrameError>)
    requires f.columns == ProcessedColumns[..8] && AllWidth(f.rows, 8)
    ensures r.Err? <==> |f.rows| == 0
    ensures r.Err? ==> r.error == ValueError("PythonWantWorkWith")
    ensures r.Ok? ==> r.value.columns == ProcessedColumns[..11]
    ensures r.Ok? ==> r.value.rows == WithIndicator(WithIndicator(WithIndicator(f.rows, 8, "Python", 3), 9, "R", 3), 10, "Julia", 3)
  {
    IndicatorLabels();
    r := AddIndicator(f, "PythonWantWorkWith", "Python", "LanguageWantToWorkWith", 8, 3);
    if r.Err? {
      return;
    }
    r := AddIndicator(r.value, "RWantWorkWith", "R", "LanguageWantToWorkWith", 9, 3);
    assert r.Ok?;
    r := AddIndicator(r.value, "JuliaWantWorkWith", "Julia", "LanguageWantToWorkWith", 10, 3);
  }

  /**
   * The six language indicator columns, in the order they are assigned. On a
   * frame without rows the first assignment raises a ValueError; the later
   * ones then always see rows.
   */
  method AddLanguageIndicators(f: Frame) returns (result: Result<Frame, FrameError>)
    requires WellFormed(f) && f.columns == CanonicalColumns + ["IsDataScientist"]
    ensures AllWidth(f.rows, 5)
    ensures result.Err? <==> |f.rows| == 0
    ensures result.Err? ==> result.error == ValueError("PythonWorkedWith")
    ensures result.Ok? ==> WellFormed(result.value) && result.value.columns == ProcessedColumns
    ensures result.Ok? ==> result.value.rows == MapLanguageFlags(f.rows)
  {
    RowsHaveWidth(f);
    ProcessedPrefix();
    var worked := AddWorkedIndicators(f);
    if worked.Err? {
      return worked;
    }
    result := AddWantIndicators(worked.value);
    assert result.Ok?;
    IndicatorsInOrder(f.rows);
    ProcessedWellFormed(result.value);
  }

  lemma ProcessedWellFormed(f: Frame)
    requires f.columns == ProcessedColumns[..11] && AllWidth(f.rows, 11)
    ensures f.columns == ProcessedColumns && WellFormed(f)
  {
    ProcessedDistinct();
    TakeAll(ProcessedColumns);
    WidthsWellFormed(f, 11);
  }

  lemma TakeAll(names: seq<string>)
    ensures names[..|names|] == names
  {
  }

  lemma WidthsWellFormed(f: Frame, width: nat)
    requires Distinct(f.columns) && |f.columns| == width && AllWidth(f.rows, width)
    ensures WellFormed(f)
  {
    forall i | 0 <= i < |f.rows| ensures |f.rows[i]| == width {
      assert f.rows[i] in f.rows;
    }
  }

  /** The six indicator columns, appended one at a time, amount to each row's language flags. */
  lemma IndicatorsInOrder(rows: seq<Row>)
    requires AllWidth(rows, 5)
    ensures
      var r5 := WithIndicator(rows, 5, "Python", 2);
      var r6 := WithIndicator(r5, 6, "R", 2);
      var r7 := WithIndicator(r6, 7, "Julia", 2);
      var r8 := WithIndicator(r7, 8, "Python", 3);
      var r9 := WithIndicator(r8, 9, "R", 3);
      WithIndicator(r9, 10, "Julia", 3) == MapLanguageFlags(rows)
  {
    var r5 := WithIndicator(rows, 5, "Python", 2);
    var r6 := WithIndicator(r5, 6, "R", 2);
    var r7 := WithIndicator(r6, 7, "Julia", 2);
    var r8 := WithIndicator(r7, 8, "Python", 3);
    var r9 := WithIndicator(r8, 9, "R", 3);
    var r10 := WithIndicator(r9, 10, "Julia", 3);
    forall i | 0 <= i < |rows| ensures r10[i] == WithLanguageFlags(rows[i]) {
      assert rows[i] in rows;
      IndicatorsOfRow(rows[i], r5[i], r6[i], r7[i], r8[i], r9[i], r10[i]);
    }
  }

  /** The six single-cell appends of one row, in assignment order, amount to its language flags. */
  lemma IndicatorsOfRow(x: Row, x5: Row, x6: Row, x7: Row, x8: Row, x9: Row, x10: Row)
    requires |x| == 5
    requires x5 == x + [Bool(CheckForLang("Python", CellText(x[2])))]
    requires x6 == x5 + [Bool(CheckForLang("R", CellText(x5[2])))]
    requires x7 == x6 + [Bool(CheckForLang("Julia", CellText(x6[2])))]
    requires x8 == x7 + [Bool(CheckForLang("Python", CellText(x7[3])))]
    requires x9 == x8 + [Bool(CheckForLang("R", CellText(x8[3])))]
    requires x10 == x9 + [Bool(CheckForLang("Julia", CellText(x9[3])))]
    ensures x10 == WithLanguageFlags(x)
  {
    assert x5[2] == x[2] && x6[2] == x[2];
    assert x5[3] == x[3] && x6[3] == x[3] && x7[3] == x[3] && x8[3] == x[3] && x9[3] == x[3];
    AppendEach(x, LanguageFlags(x[2], x[3]));
  }

  /** Appending six cells one at a time appends them as a block. */
  lemma AppendEach(x: Row, cells: seq<Cell>)
    requires |cells| == 6
    ensures x + [cells[0]] + [cells[1]] + [cells[2]] + [cells[3]] + [cells[4]] + [cells[5]] == x + cells
  {
    assert cells == [cells[0]] + [cells[1]] + [cells[2]] + [cells[3]] + [cells[4]] + [cells[5]];
  }

  /**
   * The first half of process_survey_data.main(): every export is stamped
   * with its year, sliced to its layout's four columns, renamed to the
   * canonical labels and appended, 2021 first and 2017 last. A KeyError
   * lists the fields missing from the first export that lacks any of the
   * fields its layout slices.
   */
  method CombineYears(s2021: Frame, s2020: Frame, s2019: Frame, s2018: Frame, s2017: Frame)
    returns (result: Result<Frame, FrameError>)
    requires WellFormed(s2021) && WellFormed(s2020) && WellFormed(s2019) && WellFormed(s2018) && WellFormed(s2017)
    ensures result.Err? <==> !AllFieldsPresent(s2021, s2020, s2019, s2018, s2017)
    ensures result.Err? ==> result.error == KeyError(FirstMissing(s2021, s2020, s2019, s2018, s2017))
    ensures result.Ok? ==> WellFormed(result.value) && result.value.columns == CanonicalColumns
    ensures result.Ok? ==> result.value.rows == CombinedRows(s2021, s2020, s2019, s2018, s2017)
  {
    SourceLayouts();
    var y2021 := StampYear(s2021, 2021);
    var y2020 := StampYear(s2020, 2020);
    var y2019 := StampYear(s2019, 2019);
    var y2018 := StampYear(s2018, 2018);
    var y2017 := StampYear(s2017, 2017);

    // the 2021 slice is already in canonical form and starts the combined frame
    SliceStamped(s2021, 2021, CanonicalColumns);
    var sliced := Select(y2021, CanonicalColumns);
    if sliced.Err? {
      SelectMissing(y2021, CanonicalColumns);
      StampedAbsent(y2021.columns, s2021.columns, CanonicalColumns);
      return Err(sliced.error);
    }
    var combined := sliced.value;
    result := AppendSlice(combined, y2020, s2020, 2020, Columns2018To2020, Mapping2018To2020);
    if result.Err? {
      return;
    }
    result := AppendSlice(result.value, y2019, s2019, 2019, Columns2018To2020, Mapping2018To2020);
    if result.Err? {
      return;
    }
    result := AppendSlice(result.value, y2018, s2018, 2018, Columns2018To2020, Mapping2018To2020);
    if result.Err? {
      return;
    }
    result := AppendSlice(result.value, y2017, s2017, 2017, Columns2017, Mapping2017);
  }

  /** `dropna(subset=[...])` on the processed layout looks at positions 2 and 3. */
  lemma DropLanguageNulls(f: Frame)
    requires WellFormed(f) && f.columns == ProcessedColumns
    ensures DropNa(f, LanguageFields) == Frame(f.columns, Keep(f.rows, NoNullAt([2, 3])))
  {
    ProcessedDistinct();
    IndexOfDistinct(f.columns, 2);
    IndexOfDistinct(f.columns, 3);
    assert Positions(f.columns, LanguageFields) == [2, 3];
  }

  /** Some reconciled response passes the data-science role test. */
  predicate AnyDataScientist(rows: seq<Row>) {
    exists i :: 0 <= i < |rows| && |rows[i]| > 1 && CheckForDevTypes(CellText(rows[i][1]))
  }

  /** The role filter leaves some row exactly when some response has a data-science role. */
  lemma RoleFilterEmpty(rows: seq<Row>)
    requires AllWidth(rows, 4)
    ensures Keep(MapRoleFlag(rows), EqualAt(4, Bool(true))) != [] <==> AnyDataScientist(rows)
  {
    var flagged := MapRoleFlag(rows);
    var kept := Keep(flagged, EqualAt(4, Bool(true)));
    if kept != [] {
      assert kept[0] in kept;
      var j :| 0 <= j < |flagged| && flagged[j] == kept[0];
      assert rows[j] in rows;
      assert flagged[j] == WithRoleFlag(rows[j]);
    }
    if AnyDataScientist(rows) {
      var j :| 0 <= j < |rows| && |rows[j]| > 1 && CheckForDevTypes(CellText(rows[j][1]));
      assert rows[j] in rows;
      assert flagged[j] == WithRoleFlag(rows[j]);
      assert flagged[j] in flagged;
      assert flagged[j] in kept;
    }
  }

  /**
   * process_survey_data.main() on the five exports (2021, 2020, 2019, 2018,
   * 2017). It fails with a KeyError when some export lacks a column its
   * year's layout slices, naming the fields the first such export lacks. It
   * fails with a ValueError when no reconciled response is left for the
   * `IsDataScientist` assignment (every export is empty) or for the first
   * language assignment (no response has a data-science role). Otherwise the
   * table has the four canonical columns and the seven indicator columns,
   * and its rows are, in order, the enriched form of every reconciled
   * response that passes the role test and has both language fields.
   */
  method ProcessSurveyData(s2021: Frame, s2020: Frame, s2019: Frame, s2018: Frame, s2017: Frame)
    returns (result: Result<Frame, FrameError>)
    requires WellFormed(s2021) && WellFormed(s2020) && WellFormed(s2019) && WellFormed(s2018) && WellFormed(s2017)
    ensures result.Err? <==> (!AllFieldsPresent(s2021, s2020, s2019, s2018, s2017)
                              || !AnyDataScientist(CombinedRows(s2021, s2020, s2019, s2018, s2017)))
    ensures !AllFieldsPresent(s2021, s2020, s2019, s2018, s2017) ==>
              result == Err(KeyError(FirstMissing(s2021, s2020, s2019, s2018, s2017)))
    ensures AllFieldsPresent(s2021, s2020, s2019, s2018, s2017) ==>
              var all := CombinedRows(s2021, s2020, s2019, s2018, s2017);
              && (all == [] ==> result == Err(ValueError("IsDataScientist")))
              && (all != [] && !AnyDataScientist(all) ==> result == Err(ValueError("PythonWorkedWith")))
    ensures result.Ok? ==> WellFormed(result.value) && result.value.columns == ProcessedColumns
    ensures result.Ok? ==> result.value.rows == Processed(CombinedRows(s2021, s2020, s2019, s2018, s2017))
  {
    var combined := CombineYears(s2021, s2020, s2019, s2018, s2017);
    if combined.Err? {
      return Err(combined.error);
    }
    ghost var all := combined.value.rows;
    var flagged := KeepDataScientists(combined.value);
    if flagged.Err? {
      return flagged;
    }
    RoleFilterEmpty(all);
    var indicated := AddLanguageIndicators(flagged.value);
    if indicated.Err? {
      return indicated;
    }
    DropLanguageNulls(indicated.value);
    StagesMatchReference(all);
    result := Ok(DropNa(indicated.value, LanguageFields));
  }
}
