/**
 * The records the comparison script reads from the two job-listing services:
 * HeadHunter ("hh") vacancies with a nested salary sub-record, SuperJob ("sj")
 * vacancies with flat payment fields, one page of search results per service,
 * and the per-language entry the script writes into its statistics table.
 *
 * A JSON number that may be missing or null is an `Option<nat>`: `dict.get`
 * returns None for a missing key and for an explicit null alike.
 */
module Records {

  datatype Option<T> = None | Some(value: T)

  /** Python truthiness of an optional amount: None and 0 are both false. */
  predicate Truthy(x: Option<nat>) {
    x.Some? && x.value != 0
  }

  /** The `salary` sub-record of a HeadHunter vacancy (`from`, `to`, `currency`). */
  datatype HhSalary = HhSalary(salaryFrom: Option<nat>, salaryTo: Option<nat>, currency: Option<string>)

  /**
   * A HeadHunter vacancy; only its `salary` field is read. An empty `{}`
   * sub-record is falsy in Python but carries no currency either, so it is
   * skipped exactly like a missing one: `None` stands for both.
   */
  datatype HhVacancy = HhVacancy(salary: Option<HhSalary>)

  /** One HeadHunter result page: `found`, `per_page` and `items`. */
  datatype HhPage = HhPage(found: int, perPage: int, items: seq<HhVacancy>)

  /** A SuperJob vacancy: `payment_from`, `payment_to` and `currency`. */
  datatype SjVacancy = SjVacancy(paymentFrom: Option<nat>, paymentTo: Option<nat>, currency: Option<string>)

  /** One SuperJob result page: `total` and `objects`. */
  datatype SjPage = SjPage(total: int, objects: seq<SjVacancy>)

  /** The value stored under a language in the statistics table. */
  datatype LanguageStats = LanguageStats(vacanciesFound: int, vacanciesProcessed: nat, averageSalary: nat)
}
