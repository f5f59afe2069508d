/**
 * The table page (frontend/src/App.tsx): the records on display, the
 * loading flag, the last error, the filter column and the sort state, and
 * the handlers that fetch, sort and filter.
 *
 * A fetch is a request to the back end's base URL followed by the query;
 * its outcome, which the network decides, is a parameter of the handlers
 * that fetch.
 */
module Frontend {
  import opened Wrappers
  import opened Ordering
  import opened Sorting
  import opened QueryString
  import opened Types
  import opened Validator

  /** What a fetch resolves to: the parsed records, or the message of the error it threw. */
  datatype FetchOutcome = Loaded(records: seq<Data>) | Failed(message: string)

  /** The indicator drawn beside a column header. */
  datatype Arrow = Up | Down

  const NoSort: SortedColumn := SortedColumn(None, None)

  /** A sort state names a column exactly when it names a direction. */
  predicate SortConsistent(s: SortedColumn) {
    s.name.None? <==> s.asc.None?
  }

  /** The direction a click selects: ascending at first, then the opposite of the last one. */
  function ToggleAsc(prev: Option<bool>): bool {
    if prev.None? then true else !prev.value
  }

  /** The sort state after clicking `column`'s header. */
  function NextSort(prev: SortedColumn, column: OperationalColumn): SortedColumn {
    SortedColumn(Some(column), Some(ToggleAsc(prev.asc)))
  }

  /** The arguments of a sort done by the back end. */
  function SortParams(column: OperationalColumn, asc: bool): seq<Param> {
    [Param("column", ColumnName(column)), Param("asc", BoolToString(asc))]
  }

  /** The query of a sort done by the back end. */
  function SortQuery(column: OperationalColumn, asc: bool): string {
    Render(SortParams(column, asc))
  }

  /** The arguments of a filter, always done by the back end. */
  function FilterParams(column: OperationalColumn, range: Range): seq<Param> {
    [Param("column", ColumnName(column)), Param("min", IntToString(range.min)),
     Param("max", IntToString(range.max))]
  }

  /** The query of a filter, always done by the back end. */
  function FilterQuery(column: OperationalColumn, range: Range): string {
    Render(FilterParams(column, range))
  }

  /** `localeCompare`, taken as lexicographic order. */
  function LexCompare(a: string, b: string): int {
    if StrLess(a, b) then -1 else if a == b then 0 else 1
  }

  /** The comparator of a sort done in the browser. */
  function Compare(x: Data, y: Data, column: OperationalColumn, toggleAsc: bool): int {
    var sign := if toggleAsc then 1 else -1;
    match column
    case Date => LexCompare(x.date, y.date) * sign
    case Revenue => (x.revenue - y.revenue) * sign
    case NetIncome => (x.netIncome - y.netIncome) * sign
  }

  /** The records after a sort in the browser: a stable sort with Compare. */
  function LocalSort(rows: seq<Data>, column: OperationalColumn, toggleAsc: bool): seq<Data> {
    InsertionSort(rows, ValueOf(column), !toggleAsc)
  }

  /** The header indicator: none unless this column is the sorted one and has a direction. */
  function Indicator(sort: SortedColumn, column: OperationalColumn): Option<Arrow> {
    if sort.name != Some(column) || sort.asc.None? then None
    else if sort.asc.value then Some(Up)
    else Some(Down)
  }

  class App {
    const baseUrl: string
    var data: Option<seq<Data>>
    var isLoading: bool
    var error: Option<string>
    var filter: OperationalColumn
    var sort: SortedColumn
    /** Every URL fetched so far, oldest first. */
    var requests: seq<string>

    /** Between two events: the sort state is consistent and no fetch is in progress. */
    ghost predicate Valid()
      reads this
    {
      SortConsistent(sort) && !isLoading
    }

    constructor (baseUrl: string)
      ensures Valid()
      ensures this.baseUrl == baseUrl && data == None && !isLoading && error == None
      ensures filter == Date && sort == NoSort && requests == []
    {
      this.baseUrl := baseUrl;
      data := None;
      isLoading := false;
      error := None;
      filter := Date;
      sort := NoSort;
      requests := [];
    }

    /** The part of `getData` before its `await`: the flag is raised and the request sent. */
    method BeginFetch(query: string)
      modifies this
      ensures isLoading && requests == old(requests) + [baseUrl + query]
      ensures data == old(data) && error == old(error) && sort == old(sort) && filter == old(filter)
    {
      isLoading := true;
      requests := requests + [baseUrl + query];
    }

    /** The part of `getData` after its `await`: store the records or the error, then lower the flag. */
    method EndFetch(outcome: FetchOutcome)
      modifies this
      ensures !isLoading
      ensures outcome.Loaded? ==> data == Some(outcome.records) && error == old(error)
      ensures outcome.Failed? ==> error == Some(outcome.message) && data == old(data)
      ensures requests == old(requests) && sort == old(sort) && filter == old(filter)
    {
      match outcome {
        case Loaded(records) => data := Some(records);
        case Failed(message) => error := Some(message);
      }
      isLoading := false;
    }

    /** `getData(query)`: one fetch, bracketed by the loading flag. */
    method GetData(query: string, outcome: FetchOutcome)
      requires Valid()
      modifies this
      ensures Valid()
      ensures requests == old(requests) + [baseUrl + query]
      ensures outcome.Loaded? ==> data == Some(outcome.records) && error == old(error)
      ensures outcome.Failed? ==> error == Some(outcome.message) && data == old(data)
      ensures sort == old(sort) && filter == old(filter)
    {
      BeginFetch(query);
      EndFetch(outcome);
    }

    /** The first render fetches the unsorted, unfiltered list. */
    method Mount(outcome: FetchOutcome)
      requires Valid()
      modifies this
      ensures Valid()
      ensures requests == old(requests) + [baseUrl]
      ensures outcome.Loaded? ==> data == Some(outcome.records) && error == old(error)
      ensures outcome.Failed? ==> error == Some(outcome.message) && data == old(data)
      ensures sort == old(sort) && filter == old(filter)
    {
      GetData("", outcome);
      assert baseUrl + "" == baseUrl;
    }

    /**
     * `sortData(column)`: with nothing loaded, ask the back end for the
     * sorted list; otherwise sort a copy of the loaded records here. Either
     * way the clicked column and the new direction become the sort state.
     */
    method SortData(column: OperationalColumn, outcome: FetchOutcome)
      requires Valid()
      modifies this
      ensures Valid()
      ensures sort == NextSort(old(sort), column)
      ensures filter == old(filter)
      ensures old(data).None? ==>
        && requests == old(requests) + [baseUrl + SortQuery(column, ToggleAsc(old(sort.asc)))]
        && (outcome.Loaded? ==> data == Some(outcome.records) && error == old(error))
        && (outcome.Failed? ==> error == Some(outcome.message) && data == old(data))
      ensures old(data).Some? ==>
        && data == Some(LocalSort(old(data).value, column, ToggleAsc(old(sort.asc))))
        && requests == old(requests) && error == old(error)
    {
      var toggleAsc := ToggleAsc(sort.asc);
      if data.None? {
        GetData(SortQuery(column, toggleAsc), outcome);
      } else {
        var rows := data.value;
        var copy := new Data[|rows|](i requires 0 <= i < |rows| => rows[i]);
        assert copy[..] == rows;
        SortInPlace(copy, ValueOf(column), !toggleAsc);
        data := Some(copy[..]);
      }
      sort := SortedColumn(Some(column), Some(toggleAsc));
    }

    /** `filterData(range)`: ask the back end for the records of the filter column in the range. */
    method FilterData(range: Range, outcome: FetchOutcome)
      requires Valid()
      modifies this
      ensures Valid()
      ensures requests == old(requests) + [baseUrl + FilterQuery(old(filter), range)]
      ensures outcome.Loaded? ==> data == Some(outcome.records) && error == old(error)
      ensures outcome.Failed? ==> error == Some(outcome.message) && data == old(data)
      ensures sort == old(sort) && filter == old(filter)
    {
      GetData(FilterQuery(filter, range), outcome);
    }

    /** Choosing a column in the filter selector; nothing is fetched. */
    method SetFilter(column: OperationalColumn)
      requires Valid()
      modifies this
      ensures Valid()
      ensures filter == column
      ensures data == old(data) && error == old(error) && sort == old(sort) && requests == old(requests)
    {
      filter := column;
    }

    /**
     * Submitting the range form: the schema runs first, and only a valid
     * range reaches `filterData`; otherwise the issues are shown and
     * nothing is fetched.
     */
    method SubmitRange(min: Coerced, max: Coerced, outcome: FetchOutcome) returns (issues: seq<Issue>)
      requires Valid()
      modifies this
      ensures Valid()
      ensures sort == old(sort) && filter == old(filter)
      ensures Validate(min, max).Failure? ==>
        issues == Validate(min, max).error && issues != [] &&
        data == old(data) && error == old(error) && requests == old(requests)
      ensures Validate(min, max).Success? ==>
        issues == [] &&
        requests == old(requests) + [baseUrl + FilterQuery(old(filter), Validate(min, max).value)] &&
        (outcome.Loaded? ==> data == Some(outcome.records) && error == old(error)) &&
        (outcome.Failed? ==> error == Some(outcome.message) && data == old(data))
    {
      match Validate(min, max)
      case Failure(found) =>
        issues := found;
      case Success(range) =>
        FilterData(range, outcome);
        issues := [];
    }
  }

  // ---------------------------------------------------------------------
  // Properties

  /** The direction depends on the previous direction only, never on the column clicked. */
  lemma ToggleIgnoresColumn(prev: SortedColumn, c1: OperationalColumn, c2: OperationalColumn)
    ensures NextSort(prev, c1).asc == NextSort(prev, c2).asc
    ensures prev.asc.None? ==> NextSort(prev, c1).asc == Some(true)
    ensures prev.asc.Some? ==> NextSort(prev, c1).asc == Some(!prev.asc.value)
  {
  }

  /** Every click leaves a consistent sort state naming the clicked column. */
  lemma NextSortConsistent(prev: SortedColumn, column: OperationalColumn)
    ensures SortConsistent(NextSort(prev, column))
    ensures NextSort(prev, column).name == Some(column)
  {
  }

  /** From the initial state, two clicks on a header ask first for ascending, then for descending order. */
  lemma TwoClicks(c: OperationalColumn)
    ensures NextSort(NoSort, c).asc == Some(true)
    ensures NextSort(NextSort(NoSort, c), c).asc == Some(false)
    ensures SortQuery(c, ToggleAsc(NoSort.asc)) == "?column=" + ColumnName(c) + "&asc=true"
    ensures SortQuery(c, ToggleAsc(NextSort(NoSort, c).asc)) == "?column=" + ColumnName(c) + "&asc=false"
  {
    SortQueryText(c, true);
    SortQueryText(c, false);
  }

  /**
   * Two clicks on the same header of a fresh page. The first asks the back
   * end for `asc=true`. The second sends `asc=false` only when the first
   * fetch failed: after a successful one the records are loaded, so the
   * second click sorts them in the browser and fetches nothing.
   */
  method ClickTwice(baseUrl: string, column: OperationalColumn, first: FetchOutcome, second: FetchOutcome)
    returns (app: App)
    ensures app.Valid()
    ensures app.sort == SortedColumn(Some(column), Some(false))
    ensures first.Loaded? ==>
      && app.requests == [baseUrl + SortQuery(column, true)]
      && app.data == Some(LocalSort(first.records, column, false))
      && app.error == None
    ensures first.Failed? ==>
      && app.requests == [baseUrl + SortQuery(column, true), baseUrl + SortQuery(column, false)]
      && (second.Loaded? ==> app.data == Some(second.records) && app.error == Some(first.message))
      && (second.Failed? ==> app.data == None && app.error == Some(second.message))
  {
    app := new App(baseUrl);
    app.SortData(column, first);
    app.SortData(column, second);
  }

  /** The text of a sort query. */
  lemma SortQueryText(column: OperationalColumn, asc: bool)
    ensures SortQuery(column, asc) == "?column=" + ColumnName(column) + "&asc=" + (if asc then "true" else "false")
  {
    RenderTwo(Param("column", ColumnName(column)), Param("asc", BoolToString(asc)));
  }

  /** The text of a filter query. */
  lemma FilterQueryText(column: OperationalColumn, range: Range)
    ensures FilterQuery(column, range)
         == "?column=" + ColumnName(column) + "&min=" + IntToString(range.min) + "&max=" + IntToString(range.max)
  {
    RenderThree(Param("column", ColumnName(column)), Param("min", IntToString(range.min)),
                Param("max", IntToString(range.max)));
  }

  /**
   * The browser's comparator puts `x` first exactly when the model's sort
   * does, and calls two records equal exactly when their keys are.
   */
  lemma CompareAgrees(x: Data, y: Data, column: OperationalColumn, toggleAsc: bool)
    ensures Compare(x, y, column, toggleAsc) < 0 <==> Before(ValueOf(column), !toggleAsc, x, y)
    ensures Compare(x, y, column, toggleAsc) > 0 <==> Before(ValueOf(column), !toggleAsc, y, x)
    ensures Compare(x, y, column, toggleAsc) == 0 <==> Value(x, column) == Value(y, column)
  {
    if column == Date {
      StrLessAsymmetric(x.date, y.date);
      StrLessIrreflexive(x.date);
      if x.date != y.date {
        StrLessTotal(x.date, y.date);
      }
    }
  }

  /**
   * A sort in the browser rearranges the loaded records: ascending by the
   * column when the new direction is ascending, descending otherwise, and
   * ties keep their order.
   */
  lemma LocalSortSpec(rows: seq<Data>, column: OperationalColumn, toggleAsc: bool)
    ensures var r := LocalSort(rows, column, toggleAsc);
      && multiset(r) == multiset(rows)
      && (toggleAsc ==> forall i, j :: 0 <= i < j < |r| ==> KeyLe(Value(r[i], column), Value(r[j], column)))
      && (!toggleAsc ==> forall i, j :: 0 <= i < j < |r| ==> KeyLe(Value(r[j], column), Value(r[i], column)))
      && forall k :: WithKey(r, ValueOf(column), k) == WithKey(rows, ValueOf(column), k)
  {
    var r := LocalSort(rows, column, toggleAsc);
    SortPermutes(rows, ValueOf(column), !toggleAsc);
    SortSorts(rows, ValueOf(column), !toggleAsc);
    forall k {
      SortIsStable(rows, ValueOf(column), !toggleAsc, k);
    }
    forall i, j | 0 <= i < j < |r|
      ensures toggleAsc ==> KeyLe(Value(r[i], column), Value(r[j], column))
      ensures !toggleAsc ==> KeyLe(Value(r[j], column), Value(r[i], column))
    {
      assert !Before(ValueOf(column), !toggleAsc, r[j], r[i]);
    }
  }

  /** A header shows an arrow only for the sorted column with a direction; up means ascending. */
  lemma IndicatorSpec(sort: SortedColumn, column: OperationalColumn)
    ensures Indicator(sort, column).Some? <==> sort.name == Some(column) && sort.asc.Some?
    ensures Indicator(sort, column) == Some(Up) <==> sort.name == Some(column) && sort.asc == Some(true)
  {
  }

  /** After a click exactly the clicked header shows an arrow, pointing the new direction. */
  lemma IndicatorAfterClick(prev: SortedColumn, clicked: OperationalColumn, other: OperationalColumn)
    ensures Indicator(NextSort(prev, clicked), other) ==
      if other == clicked then Some(if ToggleAsc(prev.asc) then Up else Down) else None
  {
  }
}
