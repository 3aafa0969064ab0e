# UTCI-SML dashboard logic, in Dafny

The dashboard lets a student paste authentication headers and pick one of
their classes. It then shows that class's test results week by week. Each
result row can be expanded to show the test's detail record, and that record
can be copied to the clipboard. Almost all of the code is rendering. This
project models the small amount of logic underneath it, in four modules:

- `JsValues` (`js_values.dfy`) covers the JavaScript notions the logic relies
  on. These are nullable values, thrown errors with a message, the truthiness
  of numbers (`null` and `0` are falsy) and strings (`""` is falsy), and the
  decimal text that a template literal gives an integer below 10^21 in
  magnitude.
- `WeekOptions` (`week_options.dfy`) models the `weeks` options of the results
  view. It takes the weeks of the fetched course plan, keeps each week once
  (`new Set`, first occurrence kept), sorts them numerically and labels each
  one `Tuần <week>`. These are pure functions with proved properties: the
  values are strictly ascending, they are exactly the plan's weeks, and they
  depend only on which weeks occur.
- `TestResultsDisplay` (`test_results_display.dfy`) covers the rest of the
  results view:
  - the `enabled` condition of each of its three queries;
  - what each query function returns, including the detail query's two thrown
    errors;
  - the expand/collapse and "ever clicked" state, as the class `ResultView`,
    whose handlers are specified by the pure transition `Click`;
  - which state each region of the view shows: the week selector, the results
    panel, and each row's detail area.
- `Home` (`home.dfy`) covers the page's session state as the class `HomePage`,
  its two handlers, and the choice between the header form and the main view.

The remote service calls are parameters, not part of the model. The same holds
for the query library's `isLoading`, `error` and `data`, and for whether a
clipboard write succeeded. A payload is passed as it reads after
`response?.data`, as a `Nullable` sequence.

Three consequences of the code are worth stating:

- Selecting another week leaves `expandedTestId` as it was, so the open row
  need not be among the listed results (`ResultView.SelectWeek`).
- The detail query needs headers and a truthy id, so a test with id `0` never
  has its detail fetched (`TestResultsDisplay.ClickSwitchesDetailQuery`).
- Any headers record enables the queries of the results view, even an empty
  one. Only the home page requires at least one header before it shows the
  results view (`Home.PageHeadersEnableCoursePlanOfChosenClass`).

## Model

| member | source | states |
|---|---|---|
| `JsValues.NatToDecimal` | src/components/TestResultsDisplay.tsx:114 | The decimal text of a natural number is non-empty, all digits, and has no leading zero. |
| `JsValues.NumberToString` | src/components/TestResultsDisplay.tsx:114 | The template-literal text of an integer is non-empty. It starts with `-` exactly when the number is negative, and the rest is digits. |
| `JsValues.ParseNatToDecimal` | src/components/TestResultsDisplay.tsx:114 | Reading a number's decimal digits back gives the number. |
| `JsValues.NumberToStringRoundTrip` | src/components/TestResultsDisplay.tsx:114 | Parsing the text of any integer gives that integer back. |
| `JsValues.NumberToStringInjective` | src/components/TestResultsDisplay.tsx:114 | Two integers with the same text are equal. |
| `WeekOptions.PlanWeeks` | src/components/TestResultsDisplay.tsx:111 | With no course plan there are no weeks. Otherwise the weeks are the activities' weeks, position by position. |
| `WeekOptions.Distinct` | src/components/TestResultsDisplay.tsx:110-112 | The de-duplicated weeks hold each value at most once, and they contain exactly the values of the input. |
| `WeekOptions.Insert` | src/components/TestResultsDisplay.tsx:113 | Inserting into an ascending list keeps it ascending, adds exactly the inserted value, and puts the smaller of the new value and the old head first. |
| `WeekOptions.SortAscending` | src/components/TestResultsDisplay.tsx:113 | The numeric sort gives an ascending permutation of its input. |
| `WeekOptions.Labelled` | src/components/TestResultsDisplay.tsx:114 | There is one option per week, in the same order, with value equal to the week and label `Label(week)`, which is `Tuần ` followed by the week's text (`WeekOptions.Label`, line 114). |
| `WeekOptions.Weeks` | src/components/TestResultsDisplay.tsx:110-114 | A missing course plan gives no options. Otherwise the option values are strictly ascending and are exactly the plan's weeks, and each label is `Tuần ` followed by its value's text. |
| `WeekOptions.UniqueAscendingIsStrict` | src/components/TestResultsDisplay.tsx:110-113 | An ascending list without repeated values is strictly ascending. |
| `WeekOptions.SortedDistinct` | src/components/TestResultsDisplay.tsx:110-113 | Sorting the de-duplicated weeks gives a strictly ascending list of exactly the input's weeks. |
| `WeekOptions.StrictlyAscendingDeterminedByElements` | src/components/TestResultsDisplay.tsx:113 | Two strictly ascending lists with the same elements are equal. |
| `WeekOptions.WeeksAreSortedDistinctWeeks` | src/components/TestResultsDisplay.tsx:110-114 | The options are exactly the labelled, strictly ascending listing of the plan's distinct weeks, so they correspond one to one with the sorted distinct weeks. |
| `WeekOptions.WeeksIgnoreOrderAndDuplicates` | src/components/TestResultsDisplay.tsx:110-114 | Two plans with the same set of weeks give the same options, whatever the order or the repetitions. |
| `WeekOptions.WeekOfferedOnce` | src/components/TestResultsDisplay.tsx:110-114 | Every week of the plan is offered, and no two options have the same value. |
| `WeekOptions.LabelsDistinct` | src/components/TestResultsDisplay.tsx:114 | No two options have the same label. |
| `WeekOptions.WeeksExample` | src/components/TestResultsDisplay.tsx:110-114 | A plan with weeks 3, 1, 2, 1, 3 gives the options `Tuần 1`, `Tuần 2`, `Tuần 3` with values 1, 2, 3. |
| `TestResultsDisplay.CoursePlanQuery` | src/components/TestResultsDisplay.tsx:43-52 | When the course-plan query is enabled (`CoursePlanEnabled`: headers present and a truthy class id, line 51), its guard at line 46 never fires and it returns the payload. A disabled query or a missing payload (`PayloadOrEmpty`: the payload, or no rows when it is missing, line 49) gives no activities. |
| `TestResultsDisplay.TestResultsQuery` | src/components/TestResultsDisplay.tsx:58-67 | When the results query is enabled (`TestResultsEnabled`: headers present, a truthy class id and a non-null week, line 66), it returns the payload. A disabled query or a missing payload (`PayloadOrEmpty`, line 64) gives no results. |
| `TestResultsDisplay.DetailQuery` | src/components/TestResultsDisplay.tsx:73-87 | When the detail query is disabled (`DetailEnabled`: a truthy expanded id and headers present, line 86), it throws the invalid-request error. When enabled, it succeeds exactly when the payload is present and non-empty, and then yields its first record. Otherwise it throws the "not found" error. |
| `TestResultsDisplay.TestResultsNeedCoursePlan` | src/components/TestResultsDisplay.tsx:51-66 | The results query (`TestResultsEnabled`, line 66) is enabled exactly when the course-plan query (`CoursePlanEnabled`, line 51) is enabled and a week is selected. |
| `TestResultsDisplay.Click` | src/components/TestResultsDisplay.tsx:89-98 | A click adds the id to the clicked set. Afterwards no row is open exactly when the clicked row was the open one; otherwise the clicked row is open. The week and the copied marker are unchanged. |
| `TestResultsDisplay.ClicksAccumulate` | src/components/TestResultsDisplay.tsx:89-98 | After any run of clicks, the clicked set is the old set plus every clicked id, so it never loses a member. |
| `TestResultsDisplay.LastClickDecidesExpansion` | src/components/TestResultsDisplay.tsx:93-97 | After a non-empty run of clicks, either no row is open or the last clicked row is. |
| `TestResultsDisplay.ClicksKeepWeekAndCopied` | src/components/TestResultsDisplay.tsx:89-98 | Clicks never change the selected week or the copied marker. |
| `TestResultsDisplay.RepeatedClicksToggle` | src/components/TestResultsDisplay.tsx:93-97 | Clicking a collapsed row `n > 0` times leaves it open exactly when `n` is odd, and otherwise leaves no row open. |
| `TestResultsDisplay.DoubleClickFromCollapsed` | src/components/TestResultsDisplay.tsx:89-98 | Two clicks on a row while none is open restore the state, except that the row is now in the clicked set. |
| `TestResultsDisplay.ClickSwitchesDetailQuery` | src/components/TestResultsDisplay.tsx:86-97 | With headers present, a click enables the detail query exactly when it opens a row with a non-zero id. |
| `TestResultsDisplay.ResultView.constructor` | src/components/TestResultsDisplay.tsx:34-37 | The view starts with no week, no open row, nothing copied and nothing clicked. |
| `TestResultsDisplay.ResultView.HandleTestClick` | src/components/TestResultsDisplay.tsx:89-98 | The new state is `Click` of the old one: the id is added to the clicked set, the open row closes, and any other row opens. |
| `TestResultsDisplay.ResultView.SelectWeek` | src/components/TestResultsDisplay.tsx:137 | Selecting a week sets it and changes nothing else, including the open row. |
| `TestResultsDisplay.ResultView.HandleCopyJson` | src/components/TestResultsDisplay.tsx:100-108 | A successful clipboard write marks the row as copied. A failed write changes nothing. |
| `TestResultsDisplay.ResultView.CopiedTimeout` | src/components/TestResultsDisplay.tsx:104 | The delayed reset clears the copied marker, whichever row holds it, and changes nothing else. |
| `TestResultsDisplay.ClickTwice` | src/components/TestResultsDisplay.tsx:89-98 | On the component, two clicks on a row while none is open leave no row open and the row in the clicked set, and keep the selected week and the copied marker. |
| `TestResultsDisplay.WeekSelectorRegion` | src/components/TestResultsDisplay.tsx:122-146 | The week selector shows, in this order of priority: loading; otherwise the error with its message; otherwise the select holding exactly the week options. |
| `TestResultsDisplay.ResultsRegionOf` | src/components/TestResultsDisplay.tsx:148-223 | The results panel shows exactly one of six states, in this order of priority. (1) Loading. (2) Otherwise the error, with its message or the fallback text. (3) Otherwise, with a truthy week, the list, which is exactly the fetched results when they are non-empty. (4) Otherwise, with a truthy week, "no results". (5) Otherwise, for week 0, the stray text "0" that the fallback expression evaluates to. (6) Otherwise, with no week, nothing. |
| `TestResultsDisplay.WeekZeroResultsNeverListed` | src/components/TestResultsDisplay.tsx:148-223 | For week 0 the results query is enabled and returns the rows, yet with them loaded the panel shows only the text "0". |
| `TestResultsDisplay.ResultsRegionForSelectedWeek` | src/components/TestResultsDisplay.tsx:148-223 | The panel with the week tested as `selectedWeek !== null`: loading, error, then the list or "no results" for every selected week, nothing without one, and never stray text. |
| `TestResultsDisplay.SelectedWeekRegionListsFetchedResults` | src/components/TestResultsDisplay.tsx:58-67 | With that test, the non-empty rows an enabled results query returns are exactly what the panel lists, and for every week but 0 the panel agrees with the code as written. |
| `TestResultsDisplay.RenderRow` | src/components/TestResultsDisplay.tsx:160-216 | A row is marked clicked exactly when its id is in the clicked set, and is open exactly when its id is the expanded one. A closed row hides its detail area. The open row shows, in priority order, the detail's loading state, its error, or its record with the copied marker. |
| `TestResultsDisplay.RenderRows` | src/components/TestResultsDisplay.tsx:159-217 | There is one rendered row per fetched result, in order. |
| `TestResultsDisplay.AtMostOneRowOpen` | src/components/TestResultsDisplay.tsx:161-163 | When result ids are distinct, at most one row is open. |
| `Home.ScreenOf` | src/app/page.tsx:40-44 | Exactly one of the header form (guard `ShowsHeaderInput`, line 40) and the main view (guard `ShowsMainView`, line 44) is shown. The main view needs at least one header and a non-null, non-zero student id. |
| `Home.MainSlotOf` | src/app/page.tsx:44-66 | The main-view slot shows the main view exactly when its guard holds. With headers and student id 0 it renders the text "0", next to the header form. Otherwise it renders nothing. |
| `Home.PageHeadersEnableCoursePlanOfChosenClass` | src/app/page.tsx:53-57 | The page always passes a headers record to the results view, so its course-plan query is enabled exactly when the class id is non-null and non-zero, even if the record is empty. |
| `Home.HomePage.constructor` | src/app/page.tsx:9-12 | The page starts with empty headers and null student, class and class name, so the header form is shown first. |
| `Home.HomePage.HandleHeadersProcessed` | src/app/page.tsx:14-22 | This handler sets headers, student id and class id to its arguments and keeps the class name. The main view then shows exactly when the new headers are non-empty and the new student id is truthy. |
| `Home.HomePage.HandleClassSelected` | src/app/page.tsx:24-30 | This handler sets the class id and name, and keeps the headers, the student id and the screen shown. |
| `Home.SignInAndChooseClass` | src/app/page.tsx:14-30 | Processing non-empty headers with a non-zero student, then choosing a non-zero class, shows the main view and enables the course-plan fetch for that class. |

## Left out

- The remote data-access functions `getCoursePlan`, `getAllTestResults` and `getTestDetails` are not part of this model. Their payloads are parameters.
- The query library is not modelled: its caching, retry, de-duplication, cancellation and key-based refetching, and how it sets `isLoading`, `error` and `data`. Those three values are parameters of the region functions.
- `handleCopyJson`'s clipboard write is a parameter (`clipboardWritten`). The 2000 ms delay and the independence of overlapping timers are not modelled. The timer callback is `ResultView.CopiedTimeout`.
- `ResultView.SelectWeek` takes the week already parsed. `parseInt` of the select's value is not modelled, and neither is the `NaN` that choosing the placeholder option stores.
- JsValues.NumberToString: numbers are unbounded integers, so the exponent form that JavaScript prints for magnitudes of 10^21 and above (`1e+21`) is not modelled.
- Weeks and ids are modelled as integers. Non-integer numbers and `NaN` are not modelled.
- Score formatting `(tong_diem / 10).toFixed(1)` is floating point, so test results carry only their id.
- `JSON.stringify` formatting of the detail record is not modelled; the detail record is an opaque type parameter.
- `console.log` and `console.error` are not modelled.
- The JSX markup is not modelled, including the card title fallback for a missing class name and the select's displayed value.
- `handleStartOver` is not modelled because it only reloads the browser page.
- `src/app/layout.tsx` is not modelled because it holds only metadata and layout.
- The `HeaderInput` and `ClassSelector` components are not part of this model. Only the callbacks they invoke on the page are modelled.

## Findings

| source | as written | input that shows it | evidently intended | confidence | as-written member | corrected member |
|---|---|---|---|---|---|---|
| src/components/TestResultsDisplay.tsx:154-222 | The panel tests the week for truthiness (`selectedWeek && ...`), while the results query tests `selectedWeek !== null` (line 66). | A course plan with week 0, the user selects it, and the query returns rows: the rows are fetched but never listed, and the panel shows the stray text "0". | Test the week as the query does, so that every selected week lists its results or says there are none. | low, not executed (a week 0 may never occur in real plans) | `TestResultsDisplay.WeekZeroResultsNeverListed` | `TestResultsDisplay.ResultsRegionForSelectedWeek` |
