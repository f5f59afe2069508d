# Financial data table: filter, sort and range validation

A Dafny model of the logic in a small financial-data browser. The model has three parts:

- **The back end's `index` route** (`backend/app.py`). It receives Apple's annual income statements as a list. If the query has a `column`, a `min` and a `max`, it keeps the statements whose key lies in the inclusive window `[min, max]`. For the column `date` that key is the calendar year. Then, if the query has a `column` and an `asc`, it sorts the list in place by that column, descending exactly when `asc` is the text `false`.
- **The table page** (`frontend/src/App.tsx`). It holds the loaded records, a loading flag, the last error, the filter column and the sort state. Clicking a header flips the direction. If no records are loaded yet, the click asks the back end for a sorted list. Otherwise it sorts a copy of the loaded records in the browser. Submitting the range form asks the back end for the records in the range.
- **The range schema** (`frontend/src/lib/validator.ts`). Both bounds must be numbers and integers, and the minimum must be below the maximum. Each failure has its own message.

Modules, one file each:

| module | models |
|---|---|
| `Wrappers` | `Option` and `Result` |
| `Ordering` | the column values records are compared by: text in lexicographic order, numbers by value |
| `Sorting` | the stable sort both sides use: `InsertionSort` is the specification, and `SortInPlace` sorts an array in place and is proved equal to it |
| `Filtering` | Python's `filter`, and subsequences |
| `QueryString` | query strings the front end renders and the back end reads back; `int` and `${n}` on whole numbers |
| `Backend` | `index`: `FilterStep`, `SortStep`, their composition `Index`, and the handler `HandleIndex`, which sorts an array in place |
| `Types` | the record and sort-state types of `frontend/src/lib/types.ts` |
| `Validator` | `RangeSchema` as the function `Validate` |
| `Frontend` | class `App`, whose fields are the page's state; its methods are the handlers |
| `EndToEnd` | what the back end answers to the exact queries the front end sends |

Behaviour of the code that a reader might not expect:

- The sort direction depends only on the previous direction. Clicking a different column flips the direction too; it does not restart at ascending (`App.tsx:58`).
- The page sorts in the browser whenever records are loaded. It fetches only when none are loaded. Whether a filter is active does not matter (`App.tsx:60`). The headers are drawn only once records are loaded (`App.tsx:89-91`), so from the page every click sorts in the browser. The model still covers the fetch branch.
- A filter column is always selected, because it starts at `date` (`App.tsx:31`), so a filter request always names a column.
- The page has no reset-filter handler and no guard against superseded requests.
- A failed fetch sets `error` and keeps the old records. A later successful fetch does not clear `error` (`App.tsx:45-47`).
- `App.tsx:22-25` calls the sort state's column `column`. `types.ts` calls the same field `name`. The model uses the `types.ts` shape.

A fetch is modelled as `BeginFetch` and `EndFetch`: the code before and after the `await`. What the fetch resolves to is a parameter of type `FetchOutcome`. `Loaded(records)` stands for a parsed response and `Failed(message)` for a thrown error. The URLs requested so far are kept in the field `requests`.

## Model

| member | source | states |
|---|---|---|
| `Backend.HandleIndex` | backend/app.py:24-40 | the handler (filter, then an in-place sort of the kept list) returns exactly the response `Index` specifies |
| `Backend.FilterByYear` | backend/app.py:29-31 | for column `date` with min and max, the result is a subsequence of the input holding every copy of each statement whose calendar year is in `[min, max]` (both bounds inclusive), and no other statement |
| `Backend.FilterByAmount` | backend/app.py:32-33 | for any other known column, the same holds with the statement's value in that column in place of the year |
| `Backend.InvertedWindowIsEmpty` | backend/app.py:29-33 | a window with min > max keeps no statement |
| `Backend.FilterNeverAdds` | backend/app.py:31-33 | whenever the filter step succeeds, its result is a subsequence of the input, so it adds nothing and keeps the input's order |
| `Backend.NoFilterWithoutWindow` | backend/app.py:29 | if column, min or max is missing or empty, the statements pass through unchanged |
| `Backend.NoSortWithoutDirection` | backend/app.py:37 | if column or asc is missing or empty, the order is not changed |
| `Backend.SortByColumn` | backend/app.py:38 | with a known column and a direction, the result is a permutation of the input; it is non-increasing by the column when asc is `false` and non-decreasing for any other asc; statements with equal keys keep their order |
| `Backend.UnknownColumn` | backend/app.py:29-38 | a column that names no field fails with `KeyError` exactly when some statement has to be looked up, that is, when the list is non-empty |
| `Backend.FilterThenSort` | backend/app.py:26-38 | with every argument given, the response holds exactly the statements in the window, each as often as in the input, sorted by the column; filtering happens first |
| `Backend.FieldNamed` | backend/app.py:33 | a column name denotes a field exactly when it is that field's key |
| `Sorting.SortInPlace` | backend/app.py:38 | sorting the array in place leaves exactly the stable-sort result of its old contents |
| `Sorting.SortPermutes` | backend/app.py:38 | the sort returns the same records, each as often as before |
| `Sorting.SortSorts` | backend/app.py:38 | no record of the result is strictly before one that precedes it, in the requested direction |
| `Sorting.SortIsStable` | frontend/src/App.tsx:65-71 | for every key value, the records with that key appear in the result in the same relative order as in the input |
| `Filtering.FilterIsSubsequence` | backend/app.py:31 | `filter` only deletes; the survivors keep their relative order |
| `Filtering.FilterCount` | backend/app.py:33 | `filter` keeps every copy of an element that passes the test and none that fails it |
| `Filtering.SubsequenceCount` | backend/app.py:31 | a subsequence never holds a record more often than the list it came from |
| `QueryString.ParseRender` | backend/app.py:24-36 | the arguments the back end reads by name are exactly those the front end rendered into the query string |
| `QueryString.ParseIntToString` | backend/app.py:31 | `int` applied to the text `${n}` of a whole number gives `n` back |
| `Validator.Validate` | frontend/src/lib/validator.ts:3-27 | a pair is accepted exactly when both fields are integer numbers and min < max, and the range returned carries those same values; a rejection always carries at least one issue |
| `Validator.NotANumberReported` | frontend/src/lib/validator.ts:5-15 | a field that is not a number is rejected with "Expected a number.", and the order check is then skipped |
| `Validator.FractionReported` | frontend/src/lib/validator.ts:9-18 | a number with a fractional part is rejected with "Must be an integer."; the order check still runs and complains exactly when min >= max |
| `Validator.OrderReported` | frontend/src/lib/validator.ts:20-26 | two integers with min >= max, equal ones included, get exactly the message "The maximum value must be greater than the minimum value." |
| `Validator.DefaultValuesRejected` | frontend/src/components/RangeForm.tsx:15-18 | the form's initial values (0, 0) cannot be submitted unchanged |
| `Frontend.App.constructor` | frontend/src/App.tsx:28-35 | the page starts with no records, not loading, no error, filter column `date` and no sort |
| `Frontend.App.BeginFetch` | frontend/src/App.tsx:37-43 | before the `await`, the loading flag is raised and one request to the base URL plus the query is sent |
| `Frontend.App.EndFetch` | frontend/src/App.tsx:44-50 | after the `await`, success replaces the records; failure sets the error and keeps the records; either way the flag is lowered |
| `Frontend.App.GetData` | frontend/src/App.tsx:37-51 | one fetch, bracketed by the loading flag, with the outcome stored as above |
| `Frontend.App.Mount` | frontend/src/App.tsx:53-55 | the first render fetches the base URL with no query |
| `Frontend.App.SortData` | frontend/src/App.tsx:57-79 | with no records, requests `?column=<col>&asc=<new direction>` and stores the outcome; with records, replaces them by the stable sort of a copy and fetches nothing; either way the sort state becomes (clicked column, new direction) and stays consistent |
| `Frontend.App.FilterData` | frontend/src/App.tsx:81-83 | requests `?column=<filter column>&min=<min>&max=<max>` and stores the outcome |
| `Frontend.App.SetFilter` | frontend/src/App.tsx:160 | choosing a filter column changes only the filter column |
| `Frontend.App.SubmitRange` | frontend/src/components/RangeForm.tsx:13-23 | an invalid range returns its issues and fetches nothing; a valid one is filtered on |
| `Frontend.ToggleIgnoresColumn` | frontend/src/App.tsx:58 | the new direction is ascending after no sort and otherwise the opposite of the last one, whichever column was clicked |
| `Frontend.NextSortConsistent` | frontend/src/App.tsx:75-78 | after a click, the sort state names the clicked column and a direction |
| `Frontend.TwoClicks` | frontend/src/App.tsx:58-61 | starting with no sort, the directions of the first two clicks on a header are ascending, then descending, and the sort queries they would send end in `asc=true`, then `asc=false` |
| `Frontend.ClickTwice` | frontend/src/App.tsx:57-79 | on a fresh page, two clicks on one header leave the sort descending; the first requests `asc=true`; the second requests `asc=false` exactly when the first fetch failed, and after a successful first fetch it only sorts the loaded records descending in the browser |
| `Frontend.SortQueryText` | frontend/src/App.tsx:61 | the sort query is the text `?column=<col>&asc=<true or false>` |
| `Frontend.FilterQueryText` | frontend/src/App.tsx:82 | the filter query is the text `?column=<col>&min=<min>&max=<max>` |
| `Frontend.CompareAgrees` | frontend/src/App.tsx:65-71 | the comparator is negative exactly when the record must come first: by text for `date` and by value for the others, with the sign flipped for descending order; it is zero exactly when the keys are equal |
| `Frontend.LocalSortSpec` | frontend/src/App.tsx:63-71 | the local sort returns a permutation of the loaded records, ascending by the column when the new direction is ascending and descending otherwise, with ties kept in order |
| `Frontend.IndicatorSpec` | frontend/src/App.tsx:100-104 | a header shows an arrow only if it is the sorted column and a direction is set; the arrow points up exactly when the direction is ascending |
| `Frontend.IndicatorAfterClick` | frontend/src/App.tsx:115-119 | after a click, exactly the clicked header shows an arrow, and it points in the new direction |
| `EndToEnd.SortRequestServed` | frontend/src/App.tsx:61 | the back end reads a sort query as a column and a direction with no window, and answers with every statement, sorted by that column, descending exactly for `asc=false` |
| `EndToEnd.FilterRequestServed` | frontend/src/App.tsx:82 | the back end reads a filter query as a column and window with no sort, and answers with exactly the statements in the window, in their order (the calendar year for `date`) |

## Left out

- The web framework, CORS, the Redis cache and the upstream request (`backend/app.py:1-22`). The fetched list is a parameter of the model.
- `frontend/src/hooks/useApi.tsx` is not part of this model. It is network plumbing that the page does not use.
- JSX rendering, the column definitions, the loader icon and currency formatting (`App.tsx:85-176`). Only the arrow condition is modelled.
- The react-hook-form and zod-resolver wiring of `RangeForm.tsx`. Only its initial values and the rule "a submit handler runs only on a valid range" are modelled.
- Concurrency. A fetch runs to completion inside the handler that starts it. In the source, `sortData` sets the sort state before its fetch completes. The final state is modelled the same either way. Overlapping fetches are not modelled.
- Floating point. Every amount, `eps` included, is a whole number. JavaScript's exponent notation for large numbers is not modelled. Neither are precision limits in subtraction.
- `calendarYear` is taken as a number. The upstream data sends it as text, which `int` reads at `app.py:31`. Filtering on the column `calendarYear` through `app.py:33` therefore compares numbers here, where the source would raise `TypeError`.
- Records whose keys are missing or have the wrong type. Every statement has every field. An unknown column raises `KeyError`. A type error from mixed values is not modelled.
- Fields beyond the seven modelled ones. The upstream statements (`backend/app.py:20-22`) carry many more keys. In the source a column naming one of those keys filters or sorts; in the model it raises `KeyError`.
- `Backend.ArgsOf`: its precondition requires a non-empty `min` or `max` to be text that `QueryString.ParseInt` reads. The source raises `ValueError` only when `int` actually runs on such text. Python's `int` also accepts forms `ParseInt` does not: a leading `+`, whitespace and underscores.
- Query strings are covered only for letters, digits and `-`. That is all the page sends, so percent-decoding and `+` are left out.
- `localeCompare` is taken as lexicographic order by character code. Locale collation is not modelled.
- zod's coercion of form text to a number is abstracted. A field is either `NotANumber` or `Number(value)`, with `value` a real number. Infinities are not modelled.
- A response whose JSON has the wrong shape: the source casts whatever it parses. `Loaded` always carries well-formed records.
