/**
 * What the back end answers to the queries the front end sends: a sort
 * query yields the whole list sorted by the clicked column, a filter query
 * exactly the statements in the window of the chosen column.
 */
module EndToEnd {
  import opened Wrappers
  import opened Sorting
  import opened Filtering
  import opened QueryString
  import Types
  import Validator
  import Frontend
  import Backend

  /** The back-end field a front-end column is sent as. */
  function FieldFor(c: Types.OperationalColumn): Backend.Field {
    match c
    case Date => Backend.Date
    case Revenue => Backend.Revenue
    case NetIncome => Backend.NetIncome
  }

  /** Each front-end column is sent under the name of its back-end field. */
  lemma ColumnNamesField(c: Types.OperationalColumn)
    ensures Backend.FieldNamed(Types.ColumnName(c)) == Some(FieldFor(c))
    ensures IsPlain(Types.ColumnName(c))
  {
    assert Types.ColumnName(c) == Backend.FieldName(FieldFor(c));
    Backend.FieldNamedName(FieldFor(c));
  }

  lemma SortQueryParses(c: Types.OperationalColumn, asc: bool)
    ensures Parse(Frontend.SortQuery(c, asc)) == Frontend.SortParams(c, asc)
  {
    var ps := Frontend.SortParams(c, asc);
    ColumnNamesField(c);
    assert IsPlain("column") && IsPlain("asc") by {
      assert forall i :: 0 <= i < |"column"| ==> IsPlainChar("column"[i]);
    }
    ParseRender(ps);
  }

  lemma FilterQueryParses(c: Types.OperationalColumn, range: Validator.Range)
    ensures Parse(Frontend.FilterQuery(c, range)) == Frontend.FilterParams(c, range)
  {
    var ps := Frontend.FilterParams(c, range);
    ColumnNamesField(c);
    ParseIntToString(range.min);
    ParseIntToString(range.max);
    assert IsPlain("column") && IsPlain("min") && IsPlain("max") by {
      assert forall i :: 0 <= i < |"column"| ==> IsPlainChar("column"[i]);
    }
    ParseRender(ps);
  }

  lemma SortArgs(c: Types.OperationalColumn, asc: bool)
    ensures Backend.WellFormed(Frontend.SortParams(c, asc))
    ensures Backend.ArgsOf(Frontend.SortParams(c, asc))
         == Backend.Args(Some(Types.ColumnName(c)), None, None, Some(BoolToString(asc)))
  {
    var ps := Frontend.SortParams(c, asc);
    assert "column" != "min" && "column" != "max" && "column" != "asc";
    assert "asc" != "min" && "asc" != "max";
    assert ps[1..][1..] == [];
    assert Get(ps, "column") == Some(Types.ColumnName(c));
    assert Get(ps, "asc") == Get(ps[1..], "asc") == Some(BoolToString(asc));
    assert Get(ps, "min") == Get(ps[1..], "min") == Get(ps[1..][1..], "min") == None;
    assert Get(ps, "max") == Get(ps[1..], "max") == Get(ps[1..][1..], "max") == None;
  }

  lemma FilterArgs(c: Types.OperationalColumn, range: Validator.Range)
    ensures Backend.WellFormed(Frontend.FilterParams(c, range))
    ensures Backend.ArgsOf(Frontend.FilterParams(c, range))
         == Backend.Args(Some(Types.ColumnName(c)), Some(range.min), Some(range.max), None)
  {
    ParseIntToString(range.min);
    ParseIntToString(range.max);
    var ps := Frontend.FilterParams(c, range);
    var lo, hi := IntToString(range.min), IntToString(range.max);
    assert "column" != "min" && "column" != "max" && "column" != "asc";
    assert "min" != "max" && "min" != "asc" && "max" != "asc";
    assert ps[1..] == [Param("min", lo), Param("max", hi)];
    assert ps[1..][1..] == [Param("max", hi)];
    assert ps[1..][1..][1..] == [];
    assert Get(ps, "column") == Some(Types.ColumnName(c));
    assert Get(ps, "min") == Get(ps[1..], "min") == Some(lo);
    assert Get(ps, "max") == Get(ps[1..], "max") == Get(ps[1..][1..], "max") == Some(hi);
    assert Get(ps, "asc") == Get(ps[1..], "asc") == Get(ps[1..][1..], "asc") == Get(ps[1..][1..][1..], "asc") == None;
    assert lo != "" && hi != "";
  }

  /**
   * A sort query asks for no window, so the back end returns every
   * statement, sorted by the column: descending exactly for `asc=false`.
   */
  lemma SortRequestServed(data: seq<Backend.IncomeStatement>, c: Types.OperationalColumn, asc: bool)
    ensures Backend.WellFormed(Parse(Frontend.SortQuery(c, asc)))
    ensures var args := Backend.ArgsOf(Parse(Frontend.SortQuery(c, asc)));
      && args == Backend.Args(Some(Types.ColumnName(c)), None, None, Some(BoolToString(asc)))
      && Backend.Index(data, args).Success?
      && multiset(Backend.Index(data, args).value) == multiset(data)
      && SortedBy(Backend.Index(data, args).value, Backend.KeyOf(FieldFor(c)), !asc)
  {
    SortQueryParses(c, asc);
    SortArgs(c, asc);
    ColumnNamesField(c);
    var args := Backend.ArgsOf(Frontend.SortParams(c, asc));
    assert (BoolToString(asc) == "false") == !asc;
    Backend.SortOnly(data, args, FieldFor(c));
    SortPermutes(data, Backend.KeyOf(FieldFor(c)), !asc);
    SortSorts(data, Backend.KeyOf(FieldFor(c)), !asc);
  }

  /**
   * A filter query asks for no sort, so the back end returns exactly the
   * statements whose column lies in the range, in their original order.
   * For the date column the window is on the calendar year.
   */
  lemma FilterRequestServed(data: seq<Backend.IncomeStatement>, c: Types.OperationalColumn, range: Validator.Range)
    ensures Backend.WellFormed(Parse(Frontend.FilterQuery(c, range)))
    ensures var args := Backend.ArgsOf(Parse(Frontend.FilterQuery(c, range)));
      && args == Backend.Args(Some(Types.ColumnName(c)), Some(range.min), Some(range.max), None)
      && Backend.Index(data, args).Success?
      && var r := Backend.Index(data, args).value;
      && IsSubsequence(r, data)
      && forall x: Backend.IncomeStatement :: multiset(r)[x] ==
           if (if c == Types.Date then range.min <= x.calendarYear <= range.max
               else range.min <= Backend.Amount(x, FieldFor(c)) <= range.max)
           then multiset(data)[x] else 0
  {
    FilterQueryParses(c, range);
    FilterArgs(c, range);
    ColumnNamesField(c);
    var args := Backend.ArgsOf(Frontend.FilterParams(c, range));
    if c == Types.Date {
      Backend.FilterByYear(data, args);
    } else {
      Backend.FilterByAmount(data, args, FieldFor(c));
    }
  }
}
