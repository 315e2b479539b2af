/**
 * The yearly ratio loop of main.py: for every survey year, the share of that
 * year's processed responses whose indicator column is True, for each of the
 * six indicators. Each quotient is kept exact, as a fraction whose value is
 * the real-number division; floating-point rounding is not modelled.
 */
module Aggregation {
  import opened Wrappers
  import opened Frames
  import SurveyPipeline

  /** The years in the order the loop visits them. */
  const Years: seq<int> := [2021, 2020, 2019, 2018, 2017]

  /** The six indicator columns, in the order the loop body reads them. */
  const ShareColumns: seq<string> :=
    ["PythonWorkedWith", "RWorkedWith", "JuliaWorkedWith", "PythonWantWorkWith", "RWantWorkWith", "JuliaWantWorkWith"]

  /**
   * The exceptions the loop can raise: a KeyError for a missing column, or a
   * ZeroDivisionError for a year with no responses.
   */
  datatype AggregateError = MissingColumn(column: string) | ZeroDivisionError(year: int)

  /** The quotient `hits / total` of one line, kept exact. */
  datatype Fraction = Fraction(hits: nat, total: nat) {
    /** The real number the division computes. */
    function Value(): real
      requires total > 0
    {
      hits as real / total as real
    }
  }

  /** The six dictionaries the loop fills, keyed by year. */
  datatype Shares = Shares(
    pythonWorked: map<int, Fraction>, rWorked: map<int, Fraction>, juliaWorked: map<int, Fraction>,
    pythonWant: map<int, Fraction>, rWant: map<int, Fraction>, juliaWant: map<int, Fraction>)

  /** `df_survey_combined[df_survey_combined["Year"] == year]`: the responses of `year`. */
  function YearRows(df: Frame, year: int): (r: Frame)
    requires WellFormed(df) && "Year" in df.columns
    ensures WellFormed(r) && r.columns == df.columns
  {
    WhereEqual(df, "Year", Int(year))
  }

  /** `df_curr_year["Year"].size`: the number of responses of `year`. */
  function Total(df: Frame, year: int): nat
    requires WellFormed(df) && "Year" in df.columns
  {
    Count(df.rows, EqualAt(IndexOf(df.columns, "Year"), Int(year)))
  }

  /**
   * `df_curr_year[name][df_curr_year[name]].size` (or, on the first line, the
   * same count taken through the masked frame): how many of them have `name` True.
   */
  function Hits(df: Frame, year: int, name: string): nat
    requires WellFormed(df) && "Year" in df.columns && name in df.columns
  {
    Count(Keep(df.rows, EqualAt(IndexOf(df.columns, "Year"), Int(year))), EqualAt(IndexOf(df.columns, name), Bool(true)))
  }

  /** The total is the size of the year's selection. */
  lemma TotalIsSize(df: Frame, year: int)
    requires WellFormed(df) && "Year" in df.columns
    ensures Total(df, year) == |YearRows(df, year).rows|
  {
    CountIsKeep(df.rows, EqualAt(IndexOf(df.columns, "Year"), Int(year)));
  }

  /** The hits are the size of the selection masked by the indicator column. */
  lemma HitsIsSize(df: Frame, year: int, name: string)
    requires WellFormed(df) && "Year" in df.columns && name in df.columns
    ensures Hits(df, year, name) == |WhereTrue(YearRows(df, year), name).rows|
  {
    CountIsKeep(YearRows(df, year).rows, EqualAt(IndexOf(df.columns, name), Bool(true)));
  }

  /** No more responses of a year have a flag set than the year has responses. */
  lemma HitsAtMostTotal(df: Frame, year: int, name: string)
    requires WellFormed(df) && "Year" in df.columns && name in df.columns
    ensures Hits(df, year, name) <= Total(df, year)
  {
    TotalIsSize(df, year);
    HitsIsSize(df, year, name);
  }

  /** A fraction of a part over a nonempty whole is a proportion. */
  lemma RatioBounds(f: Fraction)
    requires f.hits <= f.total && f.total > 0
    ensures 0.0 <= f.Value() <= 1.0 && f.Value() * f.total as real == f.hits as real
    ensures f.Value() == 0.0 <==> f.hits == 0
    ensures f.Value() == 1.0 <==> f.hits == f.total
  {
  }

  /**
   * One line of the loop body: the share of `year`'s responses with `name`
   * True. Reading the column comes first, so a missing column is a KeyError
   * even for an empty year; otherwise an empty year divides by zero.
   */
  function Share(df: Frame, year: int, name: string): (r: Result<Fraction, AggregateError>)
    requires WellFormed(df) && "Year" in df.columns
    ensures r.Ok? <==> name in df.columns && Total(df, year) > 0
    ensures r.Err? ==> r.error == if name in df.columns then ZeroDivisionError(year) else MissingColumn(name)
  {
    if name !in df.columns then Err(MissingColumn(name))
    else if Total(df, year) == 0 then Err(ZeroDivisionError(year))
    else Ok(Fraction(Hits(df, year, name), Total(df, year)))
  }

  /**
   * A computed share is a proportion of the year's responses: between 0 and 1,
   * 0 exactly when none has the flag set and 1 exactly when all have.
   */
  lemma ShareIsProportion(df: Frame, year: int, name: string)
    requires WellFormed(df) && "Year" in df.columns && Share(df, year, name).Ok?
    ensures var q := Share(df, year, name).value;
      q.hits == Hits(df, year, name) && q.total == Total(df, year) > 0 && 0.0 <= q.Value() <= 1.0
    ensures Share(df, year, name).value.Value() == 0.0 <==> Hits(df, year, name) == 0
    ensures Share(df, year, name).value.Value() == 1.0 <==> Hits(df, year, name) == Total(df, year)
  {
    HitsAtMostTotal(df, year, name);
    RatioBounds(Share(df, year, name).value);
  }

  /** Every indicator column the loop reads exists. */
  predicate HasShareColumns(df: Frame) {
    forall n :: n in ShareColumns ==> n in df.columns
  }

  lemma HasShareColumnsIff(df: Frame)
    ensures HasShareColumns(df) <==>
      "PythonWorkedWith" in df.columns && "RWorkedWith" in df.columns && "JuliaWorkedWith" in df.columns &&
      "PythonWantWorkWith" in df.columns && "RWantWorkWith" in df.columns && "JuliaWantWorkWith" in df.columns
  {
  }

  /**
   * The first exception of one iteration, in the order of the six lines, or
   * None when all six ratios exist.
   */
  function YearFailure(df: Frame, year: int): (r: Option<AggregateError>)
    requires WellFormed(df) && "Year" in df.columns
    ensures r == None <==> (Total(df, year) > 0 &&
      "PythonWorkedWith" in df.columns && "RWorkedWith" in df.columns && "JuliaWorkedWith" in df.columns &&
      "PythonWantWorkWith" in df.columns && "RWantWorkWith" in df.columns && "JuliaWantWorkWith" in df.columns)
    ensures r.Some? && r.value.MissingColumn? ==> r.value.column in ShareColumns && r.value.column !in df.columns
    ensures r.Some? && r.value.ZeroDivisionError? ==> r.value.year == year && Total(df, year) == 0
  {
    if Share(df, year, "PythonWorkedWith").Err? then Some(Share(df, year, "PythonWorkedWith").error)
    else if Share(df, year, "RWorkedWith").Err? then Some(Share(df, year, "RWorkedWith").error)
    else if Share(df, year, "JuliaWorkedWith").Err? then Some(Share(df, year, "JuliaWorkedWith").error)
    else if Share(df, year, "PythonWantWorkWith").Err? then Some(Share(df, year, "PythonWantWorkWith").error)
    else if Share(df, year, "RWantWorkWith").Err? then Some(Share(df, year, "RWantWorkWith").error)
    else if Share(df, year, "JuliaWantWorkWith").Err? then Some(Share(df, year, "JuliaWantWorkWith").error)
    else None
  }

  /** The first exception of the whole loop over `years`, or None. */
  function Failure(df: Frame, years: seq<int>): Option<AggregateError>
    requires WellFormed(df) && "Year" in df.columns
  {
    if years == [] then None
    else if YearFailure(df, years[0]).Some? then YearFailure(df, years[0])
    else Failure(df, years[1..])
  }

  /** The loop at position `i`: stop at this year's failure, or go on with the next years. */
  lemma FailureStep(df: Frame, years: seq<int>, i: nat)
    requires WellFormed(df) && "Year" in df.columns && i < |years|
    ensures Failure(df, years[i..]) ==
      if YearFailure(df, years[i]).Some? then YearFailure(df, years[i]) else Failure(df, years[i + 1..])
  {
    assert years[i..][0] == years[i] && years[i..][1..] == years[i + 1..];
  }

  /** The loop completes exactly when every column exists and no year is empty. */
  lemma {:induction false} FailureNone(df: Frame, years: seq<int>)
    requires WellFormed(df) && "Year" in df.columns && years != []
    ensures Failure(df, years) == None <==> HasShareColumns(df) && forall y :: y in years ==> Total(df, y) > 0
  {
    HasShareColumnsIff(df);
    if |years| > 1 {
      FailureNone(df, years[1..]);
      assert forall y :: y in years <==> y == years[0] || y in years[1..];
    }
  }

  /** A KeyError from the loop names an indicator column that is missing. */
  lemma {:induction false} FailureMissingColumn(df: Frame, years: seq<int>)
    requires WellFormed(df) && "Year" in df.columns
    requires Failure(df, years).Some? && Failure(df, years).value.MissingColumn?
    ensures Failure(df, years).value.column in ShareColumns && Failure(df, years).value.column !in df.columns
  {
    if YearFailure(df, years[0]).None? {
      FailureMissingColumn(df, years[1..]);
    }
  }

  /**
   * A ZeroDivisionError from the loop names a year with no responses, and
   * every year visited before it has responses.
   */
  lemma {:induction false} FailureEmptyYear(df: Frame, years: seq<int>)
    requires WellFormed(df) && "Year" in df.columns
    requires Failure(df, years).Some? && Failure(df, years).value.ZeroDivisionError?
    ensures exists i :: EmptyFirstAt(df, years, i, Failure(df, years).value.year)
  {
    var y := Failure(df, years).value.year;
    if YearFailure(df, years[0]).None? {
      FailureEmptyYear(df, years[1..]);
      var i :| EmptyFirstAt(df, years[1..], i, y);
      forall j | 0 <= j < i + 1 ensures Total(df, years[j]) > 0 {
        if j > 0 {
          assert years[j] == years[1..][j - 1];
        }
      }
      assert EmptyFirstAt(df, years, i + 1, y);
    } else {
      assert EmptyFirstAt(df, years, 0, y);
    }
  }

  /** `years[i]` is `y`, it has no responses, and every year before it has some. */
  predicate EmptyFirstAt(df: Frame, years: seq<int>, i: int, y: int)
    requires WellFormed(df) && "Year" in df.columns
  {
    0 <= i < |years| && years[i] == y && Total(df, y) == 0 && forall j :: 0 <= j < i ==> Total(df, years[j]) > 0
  }

  /**
   * The share of a year does not depend on responses of other years: appending
   * another year's survey (as process_survey_data does) leaves it unchanged.
   */
  lemma ShareIgnoresOtherYears(df: Frame, other: Frame, year: int, name: string)
    requires WellFormed(df) && WellFormed(other) && other.columns == df.columns && "Year" in df.columns
    requires forall x :: x in other.rows ==> Lookup(other.columns, x, "Year") != Int(year)
    ensures Share(Append(df, other), year, name) == Share(df, year, name)
  {
    var both := Append(df, other);
    AbsentOfPresent(df.columns, other.columns);
    assert both == Frame(df.columns, df.rows + other.rows);
    var c := EqualAt(IndexOf(df.columns, "Year"), Int(year));
    KeepConcat(df.rows, other.rows, c);
    KeepNone(other.rows, c);
    assert YearRows(both, year) == YearRows(df, year);
    TotalIsSize(both, year);
    TotalIsSize(df, year);
  }

  lemma {:induction false} KeepNone(rows: seq<Row>, c: Criterion)
    requires forall x :: x in rows ==> !Satisfies(x, c)
    ensures Keep(rows, c) == []
  {
    if rows != [] {
      assert rows[0] in rows;
      KeepNone(rows[1..], c);
    }
  }

  /**
   * On a frame with the layout process_survey_data writes, every column the
   * loop reads exists, so the only exception left is an empty year.
   */
  lemma ProcessedLayoutOnlyEmptyYears(df: Frame)
    requires WellFormed(df) && df.columns == SurveyPipeline.ProcessedColumns
    ensures "Year" in df.columns && HasShareColumns(df)
    ensures Failure(df, Years) == None <==> forall y :: y in Years ==> Total(df, y) > 0
    ensures Failure(df, Years).Some? ==> Failure(df, Years).value.ZeroDivisionError?
  {
    assert df.columns[0] == "Year";
    assert df.columns[5] == "PythonWorkedWith" && df.columns[6] == "RWorkedWith" && df.columns[7] == "JuliaWorkedWith";
    assert df.columns[8] == "PythonWantWorkWith" && df.columns[9] == "RWantWorkWith" && df.columns[10] == "JuliaWantWorkWith";
    HasShareColumnsIff(df);
    FailureNone(df, Years);
    if Failure(df, Years).Some? && Failure(df, Years).value.MissingColumn? {
      FailureMissingColumn(df, Years);
    }
  }

  /** `m` holds, for each of `years`, the share of `name` in that year, and nothing else. */
  predicate Filled(m: map<int, Fraction>, df: Frame, name: string, years: seq<int>)
    requires WellFormed(df) && "Year" in df.columns
  {
    m.Keys == (set y | y in years) && forall y :: y in years ==> Share(df, y, name) == Ok(m[y])
  }

  /** One more year: adding its share to a map filled for the earlier years fills it for one more. */
  lemma FilledStep(m: map<int, Fraction>, df: Frame, name: string, years: seq<int>, i: nat, v: Fraction)
    requires WellFormed(df) && "Year" in df.columns
    requires i < |years| && Filled(m, df, name, years[..i]) && Share(df, years[i], name) == Ok(v)
    ensures Filled(m[years[i] := v], df, name, years[..i + 1])
  {
    assert years[..i + 1] == years[..i] + [years[i]];
  }

  /**
   * main.py's loop: six empty dictionaries, then one entry per year in each,
   * the Python, R and Julia shares of "worked with" and of "want to work with".
   */
  method YearlyShares(df: Frame) returns (result: Result<Shares, AggregateError>)
    requires WellFormed(df)
    ensures "Year" !in df.columns ==> result == Err(MissingColumn("Year"))
    ensures "Year" in df.columns ==> (result.Err? <==> Failure(df, Years).Some?)
    ensures "Year" in df.columns && result.Err? ==> Failure(df, Years) == Some(result.error)
    ensures result.Ok? ==> "Year" in df.columns
    ensures result.Ok? ==> Filled(result.value.pythonWorked, df, "PythonWorkedWith", Years)
    ensures result.Ok? ==> Filled(result.value.rWorked, df, "RWorkedWith", Years)
    ensures result.Ok? ==> Filled(result.value.juliaWorked, df, "JuliaWorkedWith", Years)
    ensures result.Ok? ==> Filled(result.value.pythonWant, df, "PythonWantWorkWith", Years)
    ensures result.Ok? ==> Filled(result.value.rWant, df, "RWantWorkWith", Years)
    ensures result.Ok? ==> Filled(result.value.juliaWant, df, "JuliaWantWorkWith", Years)
  {
    if "Year" !in df.columns {
      return Err(MissingColumn("Year"));
    }
    var pythonWorked, pythonWant, rWorked, rWant, juliaWorked, juliaWant := map[], map[], map[], map[], map[], map[];
    for i := 0 to |Years|
      invariant Failure(df, Years) == Failure(df, Years[i..])
      invariant Filled(pythonWorked, df, "PythonWorkedWith", Years[..i])
      invariant Filled(rWorked, df, "RWorkedWith", Years[..i])
      invariant Filled(juliaWorked, df, "JuliaWorkedWith", Years[..i])
      invariant Filled(pythonWant, df, "PythonWantWorkWith", Years[..i])
      invariant Filled(rWant, df, "RWantWorkWith", Years[..i])
      invariant Filled(juliaWant, df, "JuliaWantWorkWith", Years[..i])
    {
      var year := Years[i];
      FailureStep(df, Years, i);
      var share := Share(df, year, "PythonWorkedWith");
      if share.Err? {
        return Err(share.error);
      }
      FilledStep(pythonWorked, df, "PythonWorkedWith", Years, i, share.value);
      pythonWorked := pythonWorked[year := share.value];
      share := Share(df, year, "RWorkedWith");
      if share.Err? {
        return Err(share.error);
      }
      FilledStep(rWorked, df, "RWorkedWith", Years, i, share.value);
      rWorked := rWorked[year := share.value];
      share := Share(df, year, "JuliaWorkedWith");
      if share.Err? {
        return Err(share.error);
      }
      FilledStep(juliaWorked, df, "JuliaWorkedWith", Years, i, share.value);
      juliaWorked := juliaWorked[year := share.value];
      share := Share(df, year, "PythonWantWorkWith");
      if share.Err? {
        return Err(share.error);
      }
      FilledStep(pythonWant, df, "PythonWantWorkWith", Years, i, share.value);
      pythonWant := pythonWant[year := share.value];
      share := Share(df, year, "RWantWorkWith");
      if share.Err? {
        return Err(share.error);
      }
      FilledStep(rWant, df, "RWantWorkWith", Years, i, share.value);
      rWant := rWant[year := share.value];
      share := Share(df, year, "JuliaWantWorkWith");
      if share.Err? {
        return Err(share.error);
      }
      FilledStep(juliaWant, df, "JuliaWantWorkWith", Years, i, share.value);
      juliaWant := juliaWant[year := share.value];
    }
    assert Years[..|Years|] == Years;
    result := Ok(Shares(pythonWorked, rWorked, juliaWorked, pythonWant, rWant, juliaWant));
  }
}
