/**
 * The back end's one route (`index` in backend/app.py): it takes the list of
 * annual income statements fetched upstream, optionally keeps those whose
 * column lies in an inclusive window, then optionally sorts them by a column.
 *
 * The upstream fetch, the cache and the web framework are outside the model:
 * the fetched list is a parameter and the query arguments arrive already
 * read (see ArgsOf for how they are read from a query string).
 */
module Backend {
  import opened Wrappers
  import opened Ordering
  import opened Sorting
  import opened Filtering
  import opened QueryString

  /** One annual income statement: the fields the application uses. */
  datatype IncomeStatement = IncomeStatement(
    date: string,
    calendarYear: int,
    revenue: int,
    netIncome: int,
    grossProfit: int,
    eps: int,
    operatingIncome: int)

  /** The fields a query may name as its `column`. */
  datatype Field = Date | CalendarYear | Revenue | NetIncome | GrossProfit | Eps | OperatingIncome

  function FieldName(f: Field): string {
    match f
    case Date => "date"
    case CalendarYear => "calendarYear"
    case Revenue => "revenue"
    case NetIncome => "netIncome"
    case GrossProfit => "grossProfit"
    case Eps => "eps"
    case OperatingIncome => "operatingIncome"
  }

  /** The field a column name denotes, if any: the keys of a statement. */
  function FieldNamed(name: string): (r: Option<Field>)
    ensures r.Some? ==> FieldName(r.value) == name
    ensures r.None? ==> forall f: Field :: FieldName(f) != name
  {
    if name == "date" then Some(Date)
    else if name == "calendarYear" then Some(CalendarYear)
    else if name == "revenue" then Some(Revenue)
    else if name == "netIncome" then Some(NetIncome)
    else if name == "grossProfit" then Some(GrossProfit)
    else if name == "eps" then Some(Eps)
    else if name == "operatingIncome" then Some(OperatingIncome)
    else None
  }

  /** A numeric field of a statement. */
  function Amount(x: IncomeStatement, f: Field): int
    requires f != Date
  {
    match f
    case CalendarYear => x.calendarYear
    case Revenue => x.revenue
    case NetIncome => x.netIncome
    case GrossProfit => x.grossProfit
    case Eps => x.eps
    case OperatingIncome => x.operatingIncome
  }

  /** `x[column]`: the date is text, every other field a number. */
  function Lookup(x: IncomeStatement, f: Field): Key {
    if f == Date then Str(x.date) else Num(Amount(x, f))
  }

  function KeyOf(f: Field): IncomeStatement -> Key {
    (x: IncomeStatement) => Lookup(x, f)
  }

  /**
   * The query arguments. `column` and `asc` are the raw texts; `min` and
   * `max` are the numbers `int` reads from them. `None` stands for an
   * argument that is absent or empty: both count as false in Python.
   */
  datatype Args = Args(column: Option<string>, min: Option<int>, max: Option<int>, asc: Option<string>)

  /** Python's truth value of an optional text argument. */
  predicate Truthy(a: Option<string>) {
    a.Some? && a.value != ""
  }

  /** A column name that is not a key of the statements raises `KeyError`. */
  datatype Error = KeyError(name: string)

  predicate FilterRequested(args: Args) {
    Truthy(args.column) && args.min.Some? && args.max.Some?
  }

  predicate SortRequested(args: Args) {
    Truthy(args.column) && Truthy(args.asc)
  }

  function YearWindow(lo: int, hi: int): IncomeStatement -> bool {
    (x: IncomeStatement) => lo <= x.calendarYear <= hi
  }

  function AmountWindow(f: Field, lo: int, hi: int): IncomeStatement -> bool
    requires f != Date
  {
    (x: IncomeStatement) => lo <= Amount(x, f) <= hi
  }

  /**
   * The filter step: with a column, a minimum and a maximum, keep the
   * statements whose key lies in `[min, max]`. The column `date` filters on
   * the calendar year; any other column on its own value.
   */
  function FilterStep(data: seq<IncomeStatement>, args: Args): Result<seq<IncomeStatement>, Error>
  {
    if !FilterRequested(args) then Success(data)
    else
      var name, lo, hi := args.column.value, args.min.value, args.max.value;
      if name == "date" then Success(Filter(data, YearWindow(lo, hi)))
      else match FieldNamed(name)
        case Some(f) => Success(Filter(data, AmountWindow(f, lo, hi)))
        case None => if data == [] then Success([]) else Failure(KeyError(name))
  }

  /**
   * The sort step: with a column and a direction, sort stably by the
   * column, descending exactly when the direction is the text "false".
   * Keys are computed for every statement, so an unknown column fails as
   * soon as there is one.
   */
  function SortStep(data: seq<IncomeStatement>, args: Args): Result<seq<IncomeStatement>, Error>
  {
    if !SortRequested(args) then Success(data)
    else match FieldNamed(args.column.value)
      case Some(f) => Success(InsertionSort(data, KeyOf(f), args.asc.value == "false"))
      case None => if data == [] then Success([]) else Failure(KeyError(args.column.value))
  }

  /** The response: the filter step, then the sort step on what it kept. */
  function Index(data: seq<IncomeStatement>, args: Args): Result<seq<IncomeStatement>, Error>
  {
    match FilterStep(data, args)
    case Failure(e) => Failure(e)
    case Success(kept) => SortStep(kept, args)
  }

  /**
   * The handler as it runs: `data` is reassigned by the filter step and the
   * sort step rearranges it in place.
   */
  method HandleIndex(data: seq<IncomeStatement>, args: Args) returns (r: Result<seq<IncomeStatement>, Error>)
    ensures r == Index(data, args)
  {
    var filtered := FilterStep(data, args);
    if filtered.Failure? {
      return Failure(filtered.error);
    }
    var rows := filtered.value;
    if SortRequested(args) {
      var f := FieldNamed(args.column.value);
      if f.None? {
        if rows != [] {
          return Failure(KeyError(args.column.value));
        }
      } else {
        var a := new IncomeStatement[|rows|](i requires 0 <= i < |rows| => rows[i]);
        assert a[..] == rows;
        SortInPlace(a, KeyOf(f.value), args.asc.value == "false");
        rows := a[..];
      }
    }
    return Success(rows);
  }

  // ---------------------------------------------------------------------
  // Reading the arguments from the query string

  /** `int(v)` succeeds whenever Python reaches it with this argument. */
  predicate IntArgOk(v: Option<string>) {
    v.Some? && v.value != "" ==> ParseInt(v.value).Some?
  }

  function IntArg(v: Option<string>): Option<int>
    requires IntArgOk(v)
  {
    if v.Some? && v.value != "" then Some(ParseInt(v.value).value) else None
  }

  predicate WellFormed(ps: seq<Param>) {
    IntArgOk(Get(ps, "min")) && IntArgOk(Get(ps, "max"))
  }

  /** `request.args.get(...)` for the four arguments the route reads. */
  function ArgsOf(ps: seq<Param>): Args
    requires WellFormed(ps)
  {
    Args(Get(ps, "column"), IntArg(Get(ps, "min")), IntArg(Get(ps, "max")), Get(ps, "asc"))
  }

  // ---------------------------------------------------------------------
  // Properties

  lemma FieldNamedName(f: Field)
    ensures FieldNamed(FieldName(f)) == Some(f)
  {
  }

  /** Column `date`: exactly the statements whose calendar year is in `[min, max]`, in order. */
  lemma FilterByYear(data: seq<IncomeStatement>, args: Args)
    requires args.column == Some("date") && args.min.Some? && args.max.Some?
    ensures FilterStep(data, args).Success?
    ensures var r, lo, hi := FilterStep(data, args).value, args.min.value, args.max.value;
      IsSubsequence(r, data) &&
      forall x :: multiset(r)[x] == if lo <= x.calendarYear <= hi then multiset(data)[x] else 0
  {
    var p := YearWindow(args.min.value, args.max.value);
    FilterIsSubsequence(data, p);
    forall x ensures multiset(Filter(data, p))[x] == if p(x) then multiset(data)[x] else 0 {
      FilterCount(data, p, x);
    }
  }

  /** Any other known column: exactly the statements whose value is in `[min, max]`, in order. */
  lemma FilterByAmount(data: seq<IncomeStatement>, args: Args, f: Field)
    requires FilterRequested(args) && args.column.value != "date"
    requires FieldNamed(args.column.value) == Some(f)
    ensures f != Date && FilterStep(data, args).Success?
    ensures var r, lo, hi := FilterStep(data, args).value, args.min.value, args.max.value;
      IsSubsequence(r, data) &&
      forall x :: multiset(r)[x] == if lo <= Amount(x, f) <= hi then multiset(data)[x] else 0
  {
    var p := AmountWindow(f, args.min.value, args.max.value);
    FilterIsSubsequence(data, p);
    forall x ensures multiset(Filter(data, p))[x] == if p(x) then multiset(data)[x] else 0 {
      FilterCount(data, p, x);
    }
  }

  /** A window whose minimum exceeds its maximum keeps nothing. */
  lemma InvertedWindowIsEmpty(data: seq<IncomeStatement>, args: Args)
    requires FilterRequested(args) && args.min.value > args.max.value
    requires FieldNamed(args.column.value).Some?
    ensures FilterStep(data, args) == Success([])
  {
    var name, lo, hi := args.column.value, args.min.value, args.max.value;
    if name == "date" {
      FilterDropsAll(data, YearWindow(lo, hi));
    } else {
      FilterDropsAll(data, AmountWindow(FieldNamed(name).value, lo, hi));
    }
  }

  /** Filtering never adds a statement. */
  lemma FilterNeverAdds(data: seq<IncomeStatement>, args: Args)
    requires FilterStep(data, args).Success?
    ensures IsSubsequence(FilterStep(data, args).value, data)
    ensures multiset(FilterStep(data, args).value) <= multiset(data)
  {
    var r := FilterStep(data, args).value;
    if !FilterRequested(args) {
      SubsequenceReflexive(data);
    } else if args.column.value == "date" {
      FilterIsSubsequence(data, YearWindow(args.min.value, args.max.value));
    } else if FieldNamed(args.column.value).Some? {
      FilterIsSubsequence(data, AmountWindow(FieldNamed(args.column.value).value, args.min.value, args.max.value));
    }
    SubsequenceCount(r, data);
  }

  lemma {:induction false} SubsequenceReflexive(s: seq<IncomeStatement>)
    ensures IsSubsequence(s, s)
  {
    if s != [] {
      SubsequenceReflexive(s[1..]);
    }
  }

  /** Without all three of column, min and max the statements pass unchanged. */
  lemma NoFilterWithoutWindow(data: seq<IncomeStatement>, args: Args)
    requires !Truthy(args.column) || args.min.None? || args.max.None?
    ensures FilterStep(data, args) == Success(data)
  {
  }

  /** Without both column and direction the order is left as it is. */
  lemma NoSortWithoutDirection(data: seq<IncomeStatement>, args: Args)
    requires !Truthy(args.column) || !Truthy(args.asc)
    ensures SortStep(data, args) == Success(data)
  {
  }

  /**
   * With a known column and a direction the statements are rearranged, not
   * changed: non-increasing by the column when the direction is "false",
   * non-decreasing for any other direction, and ties keep their order.
   */
  lemma SortByColumn(data: seq<IncomeStatement>, args: Args, f: Field)
    requires SortRequested(args) && FieldNamed(args.column.value) == Some(f)
    ensures SortStep(data, args).Success?
    ensures var r := SortStep(data, args).value;
      && multiset(r) == multiset(data)
      && (args.asc.value == "false" ==>
            forall i, j :: 0 <= i < j < |r| ==> KeyLe(Lookup(r[j], f), Lookup(r[i], f)))
      && (args.asc.value != "false" ==>
            forall i, j :: 0 <= i < j < |r| ==> KeyLe(Lookup(r[i], f), Lookup(r[j], f)))
      && forall k :: WithKey(r, KeyOf(f), k) == WithKey(data, KeyOf(f), k)
  {
    var desc := args.asc.value == "false";
    var r := InsertionSort(data, KeyOf(f), desc);
    SortPermutes(data, KeyOf(f), desc);
    SortSorts(data, KeyOf(f), desc);
    forall k {
      SortIsStable(data, KeyOf(f), desc, k);
    }
    forall i, j | 0 <= i < j < |r|
      ensures desc ==> KeyLe(Lookup(r[j], f), Lookup(r[i], f))
      ensures !desc ==> KeyLe(Lookup(r[i], f), Lookup(r[j], f))
    {
      assert !Before(KeyOf(f), desc, r[j], r[i]);
    }
  }

  /** A query with a direction but no window is answered with the whole list, sorted. */
  lemma SortOnly(data: seq<IncomeStatement>, args: Args, f: Field)
    requires !FilterRequested(args) && SortRequested(args)
    requires FieldNamed(args.column.value) == Some(f)
    ensures Index(data, args) == Success(InsertionSort(data, KeyOf(f), args.asc.value == "false"))
  {
  }

  /** A column that names no field fails exactly when there is a statement to look it up in. */
  lemma UnknownColumn(data: seq<IncomeStatement>, args: Args)
    requires Truthy(args.column) && FieldNamed(args.column.value).None?
    requires FilterRequested(args) || SortRequested(args)
    ensures Index(data, args).Failure? <==> data != []
    ensures Index(data, args).Failure? ==> Index(data, args).error == KeyError(args.column.value)
  {
  }

  /**
   * Filter first, then sort: with every argument given and a known column,
   * the response holds exactly the statements in the window, ordered by the
   * column.
   */
  lemma FilterThenSort(data: seq<IncomeStatement>, args: Args, f: Field)
    requires FilterRequested(args) && SortRequested(args)
    requires FieldNamed(args.column.value) == Some(f)
    ensures Index(data, args).Success?
    ensures var r, lo, hi, desc := Index(data, args).value, args.min.value, args.max.value, args.asc.value == "false";
      && (forall x :: multiset(r)[x] ==
            if (if f == Date then lo <= x.calendarYear <= hi else lo <= Amount(x, f) <= hi)
            then multiset(data)[x] else 0)
      && SortedBy(r, KeyOf(f), desc)
  {
    var kept := FilterStep(data, args).value;
    if f == Date {
      FilterByYear(data, args);
    } else {
      FilterByAmount(data, args, f);
    }
    SortPermutes(kept, KeyOf(f), args.asc.value == "false");
    SortSorts(kept, KeyOf(f), args.asc.value == "false");
  }
}
