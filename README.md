# Salary pipeline of the language comparison script

A Dafny model of the salary pipeline in `languages_comparison.py`. The script
asks HeadHunter (hh.ru) and SuperJob (superjob.ru) for vacancies per
programming language and estimates one salary per vacancy from its lower and
upper bounds. It averages the estimates per language and writes one entry
per language into a statistics table.

The model has five modules:

- `Records` (records.dfy) holds the vacancy records, the result pages and
  the table entry. A JSON number that may be missing or null is an
  `Option<nat>`. Python truthiness of such a value is `Truthy`: None and 0
  are false.
- `Salary` (salary.dfy) holds `predict_salary` as a pure function. Its
  contract gives each of the four branches and characterises the truncation
  without division.
- `Extractors` (extractors.dfy) holds `predict_rub_salary_hh` and
  `predict_rub_salary_sj`. Each is a loop method that is proved equal to a
  filter-and-map specification. Lemmas cover order, membership, skipped
  vacancies and where the two providers differ.
- `Statistics` (statistics.dfy) holds the per-language fold, the average,
  and the caller's `job_area_statistic` dictionary, which is a class updated
  in place. `get_statistics_hh` / `get_statistics_sj` are methods whose new
  table is given by `Recorded`. Lemmas about `Recorded` state what happens to
  each language.
- `Pagination` (pagination.dfy) holds the `while page < pages_number` loops
  of `get_vacansies_hh` / `get_vacansies_sj`. The network fetch is a given
  function from page index to page.

Three facts about the code that the model keeps as written:

- The estimator truncates with `int(...)`.
- The statistics functions write into the caller's dictionary. A language
  with nothing processed is skipped and gets no entry.
- The pagination bound is the page's `per_page` (HeadHunter) or `total`
  (SuperJob) field, used as a page count.

`Records.Truthy` (Python truthiness of an optional amount) is a helper of
the specification and has no row, and neither have the sequence helpers:
`Extractors.Present`, `PresentConcat`, `HhEstimates`, `SjEstimates`;
`Statistics.Sum`, `Flatten`, `Max`, `SumBounds`, `HhPageSalaries`,
`SjPageSalaries`, `HhPooled`, `SjPooled`, `HhAllItems`, `SjAllObjects`,
`HhResults`, `SjResults`, `Recorded`; `Pagination.StopsAfter`,
`PerPageBounds`, `TotalBounds`.

## Model

| member | source | states |
|---|---|---|
| `Salary.PredictSalary` | languages_comparison.py:54-60 | An estimate exists iff a bound is truthy. With both bounds, r is the truncated mean (2r <= from+to < 2r+2). With only `from`, r is 1.2*from truncated (10r <= 12*from < 10r+10). With only `to`, r is 0.8*to truncated (10r <= 8*to < 10r+10). With neither bound (missing, null or 0), there is no estimate. |
| `Salary.MeanWithinBounds` | languages_comparison.py:55-56 | With both bounds given, the estimate lies between them, in either order. |
| `Salary.OneSidedEstimates` | languages_comparison.py:57-60 | A lone lower bound x gives an estimate in [x, 1.2x]. A lone upper bound x gives one in [0, 0.8x]. |
| `Salary.ZeroEstimateIff` | languages_comparison.py:54-60 | The estimate is 0 exactly when `from` is falsy and `to` is 1. |
| `Salary.TruthyEstimateIff` | languages_comparison.py:54-60 | The estimate is truthy exactly when `from` is truthy or `to` is at least 2. |
| `Salary.EstimateExamples` | languages_comparison.py:54-60 | Concrete values: (100,200)->150, (100,-)->120, (-,200)->160, (-,-)->none, (0,-)->none, (0,100)->80, (-,1)->0. |
| `Extractors.HhEstimate` | languages_comparison.py:66-70 | A HeadHunter vacancy contributes iff it has a salary sub-record, the currency is exactly "RUR", and `from` is truthy or `to` >= 2. Its contribution is then the positive estimate of its bounds. |
| `Extractors.HhSalaries` | languages_comparison.py:63-71 | The HeadHunter extractor's output is no longer than its input and holds only positive values. A value is in it iff some vacancy contributes that value. |
| `Extractors.PredictRubSalaryHh` | languages_comparison.py:63-71 | The appending loop returns exactly the order-preserving list of contributions `HhSalaries`. |
| `Extractors.HhSalariesConcat` | languages_comparison.py:65-71 | Extracting from a + b gives a's output followed by b's output, so order is preserved. |
| `Extractors.HhSkippedVacancyIrrelevant` | languages_comparison.py:66-69 | Removing a vacancy that contributes nothing leaves the output unchanged. |
| `Extractors.HhExamples` | languages_comparison.py:66-70 | A USD salary, a missing salary and a lone `to` of 1 give no output. A RUR (100,200) vacancy gives [150]. |
| `Extractors.SjEstimate` | languages_comparison.py:77-78 | A SuperJob vacancy contributes iff `payment_from` or `payment_to` is truthy and the currency is exactly "rub". Its contribution is then the estimate of its bounds, which is never absent. |
| `Extractors.SjSalaries` | languages_comparison.py:74-79 | The SuperJob extractor's output is no longer than its input. A value is in it iff some vacancy contributes that value. |
| `Extractors.PredictRubSalarySj` | languages_comparison.py:74-79 | The appending loop returns exactly `SjSalaries`. It never appends an absent estimate. |
| `Extractors.SjSalariesConcat` | languages_comparison.py:76-79 | Extracting from a + b gives a's output followed by b's output. |
| `Extractors.SjSkippedVacancyIrrelevant` | languages_comparison.py:76-78 | Removing a vacancy that contributes nothing leaves the output unchanged. |
| `Extractors.SjExamples` | languages_comparison.py:77-78 | `payment_from` 0 with no `payment_to` gives nothing. A lone `payment_to` of 1 gives [0]. A missing currency gives nothing. (100,-) in "rub" gives [120]. |
| `Extractors.ExtractorsDifferOnlyOnZero` | languages_comparison.py:63-79 | For the same bounds in the target currency, HeadHunter's contribution equals SuperJob's, except that HeadHunter drops a 0 that SuperJob keeps. |
| `Statistics.SumConcat` | languages_comparison.py:87-90 | Summing per page and adding up equals summing the concatenation. |
| `Statistics.Average` | languages_comparison.py:92-95 | No average (the ZeroDivisionError case) iff the count is 0. Otherwise the result is total/count truncated: count*r <= total < count*(r+1). |
| `Statistics.Summary` | languages_comparison.py:91-100 | A language gets no entry iff no estimate was pooled. Otherwise the entry has the given found count, the number of pooled estimates as processed count, and their truncated mean as average. |
| `Statistics.SummaryAverageInRange` | languages_comparison.py:93-99 | The average salary lies between the smallest and the largest pooled estimate. |
| `Statistics.SingleEstimateSummary` | languages_comparison.py:96-100 | One processed estimate of 100 gives processed 1 and average 100. |
| `Statistics.HhPooledIsMergedExtraction` | languages_comparison.py:87-90 | Pooling HeadHunter estimates page by page equals extracting from all pages' items concatenated in page order. |
| `Statistics.SjPooledIsMergedExtraction` | languages_comparison.py:108-111 | Pooling SuperJob estimates page by page equals extracting from all pages' objects concatenated in page order. |
| `Statistics.PooledTotalsHh` | languages_comparison.py:85-90 | After the page loop, the sum and the count equal the sum and the length of all pages' HeadHunter estimates concatenated in page order. |
| `Statistics.PooledTotalsSj` | languages_comparison.py:106-111 | After the page loop, the sum and the count equal the sum and the length of all pages' SuperJob estimates concatenated in page order. |
| `Statistics.HhPooledPositive` | languages_comparison.py:87-90 | Every estimate pooled over HeadHunter pages is positive. |
| `Statistics.HhLanguageStats` | languages_comparison.py:91-100 | One language's HeadHunter result: none iff no estimate was pooled over its pages; otherwise `vacancies_found` is page 0's `found`, `vacancies_processed` the pooled count n, and `average_salary` the truncated mean a of the pooled estimates (n*a <= sum < n*(a+1)), which is positive because a zero estimate never enters the pool. |
| `Statistics.SjLanguageStats` | languages_comparison.py:112-122 | One language's SuperJob result: none iff no estimate was pooled over its pages; otherwise `vacancies_found` is page 0's `total`, `vacancies_processed` the pooled count n, and `average_salary` the truncated mean a of the pooled estimates (n*a <= sum < n*(a+1)). |
| `Statistics.JobAreaStatistic.constructor` | languages_comparison.py:147-148 | The table the caller passes in starts empty. |
| `Statistics.RecordedLeavesOthers` | languages_comparison.py:96-100 | A language outside the processed list keeps its table entry, or its absence. |
| `Statistics.RecordedEntry` | languages_comparison.py:92-100 | In a list without repetitions, a language with a result gets exactly that entry. A language with nothing processed keeps what the table had before. |
| `Statistics.GetStatisticsHh` | languages_comparison.py:82-100 | The table afterwards is the old table updated, language by language, with each language's HeadHunter summary. `vacancies_found` is read from page 0's `found`, and languages with count 0 are skipped. |
| `Statistics.GetStatisticsSj` | languages_comparison.py:103-122 | The same for SuperJob, with `vacancies_found` read from page 0's `total`. |
| `Pagination.GetVacanciesHh` | languages_comparison.py:8-25 | Returns pages 0, 1, ... as fetched, at least one. Each earlier page's `per_page` exceeded the next index. The last page's `per_page` does not exceed the number of pages fetched. |
| `Pagination.GetVacanciesSj` | languages_comparison.py:28-51 | The same with SuperJob's `total` as the bound. |
| `Pagination.StopsAfterUnique` | languages_comparison.py:13-24 | For one stream of reported bounds, the number of fetched pages is determined. |
| `Pagination.ConstantBoundFetchCount` | languages_comparison.py:13-23 | If every page reports the same bound b >= 1, exactly b pages are fetched, however many vacancies match. |

## Left out

- HTTP requests, query parameters, headers, the API key and URLs are not modelled. A page fetch is the function `fetch` from page index to page in `Pagination`. `Statistics` receives each language's fetched pages as a sequence.
- `raise_for_status` is not modelled: every fetch is assumed to succeed. Its fail-fast abort of a whole provider's run is out of scope.
- A missing `items`, `objects`, `found`, `per_page` or `total` field on a page (a `KeyError` in the source) cannot occur: the page datatypes always carry them.
- JSON values of the wrong type (a string salary, say) are not modelled.
- `print_tables`, `AsciiTable`, `load_dotenv`, `os.environ` and the `__main__` wiring are display and environment code.
- PredictSalary: computes `x * 1.2`, `x * 0.8`, `(a + b) / 2` in exact integer arithmetic (`x * 12 / 10`, `x * 8 / 10`, `(a + b) / 2`) over non-negative amounts. The source uses IEEE floating point before `int(...)`, which may differ on very large inputs.
- Average: `sum / count` is exact integer division on non-negative totals. Floating-point rounding of very large sums is not modelled.
- Negative amounts are not modelled. For them Python's `int(...)` truncates toward zero, while the model's amounts are `nat`.
- `predict_rub_salary_hh` calls `predict_salary` twice on the same bounds. The function is pure, so the model computes the estimate once.
- GetVacanciesHh, GetVacanciesSj: termination is proved only under the requirement that, for some index `stop` >= 1, the page at index `stop - 1` reports a bound at most `stop`. This holds exactly when the loop stops. A service whose reported bound keeps growing would make the source loop forever.
- The statistics table is a map: the dict's insertion order, which fixes the row order of the printed table, is not modelled.
- `found >= processed` is not enforced, as in the source: `vacancies_found` is copied from page 0 unchecked.
