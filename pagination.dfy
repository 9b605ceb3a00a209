/**
 * Page-bound loop control of the two fetch loops. Starting with page 0 and a
 * bound of 100, the loop fetches page `page`, replaces the bound with a field
 * of the fetched page (HeadHunter: `per_page`; SuperJob: `total`) and moves
 * to the next page while the index stays below the bound. The field is used
 * as a page count as written, even though `per_page` means items per page.
 *
 * The network request is abstracted as `fetch`: the page the service returns
 * for an index. The loop need not stop (a reported bound may keep growing),
 * so each method asks for a ghost index `stop` at which the reported bound
 * lets it stop; such an index exists exactly when the loop terminates.
 */
module Pagination {
  import opened Records

  /**
   * The loop, seeing `bounds[i]` reported by the i-th fetched page, fetches
   * exactly |bounds| pages: the index after each earlier fetch was still
   * below the bound just read, and after the last fetch it was not.
   */
  ghost predicate StopsAfter(bounds: seq<int>) {
    && |bounds| >= 1
    && (forall i :: 0 <= i < |bounds| - 1 ==> i + 1 < bounds[i])
    && bounds[|bounds| - 1] <= |bounds|
  }

  function PerPageBounds(pages: seq<HhPage>): seq<int> {
    seq(|pages|, i requires 0 <= i < |pages| => pages[i].perPage)
  }

  function TotalBounds(pages: seq<SjPage>): seq<int> {
    seq(|pages|, i requires 0 <= i < |pages| => pages[i].total)
  }

  /** `get_vacansies_hh`: the pages fetched for one language, in page order. */
  method GetVacanciesHh(fetch: nat -> HhPage, ghost stop: nat) returns (vacancies: seq<HhPage>)
    requires 1 <= stop && fetch(stop - 1).perPage <= stop
    ensures |vacancies| <= stop
    ensures forall i :: 0 <= i < |vacancies| ==> vacancies[i] == fetch(i)
    ensures StopsAfter(PerPageBounds(vacancies))
  {
    var page := 0;
    var pagesNumber := 100;
    vacancies := [];
    while page < pagesNumber
      invariant page == |vacancies| <= stop
      invariant forall i :: 0 <= i < page ==> vacancies[i] == fetch(i)
      invariant forall i :: 0 <= i < page - 1 ==> i + 1 < vacancies[i].perPage
      invariant page == 0 ==> pagesNumber == 100
      invariant page > 0 ==> pagesNumber == vacancies[page - 1].perPage
      decreases stop - page
    {
      var pagePayload := fetch(page);
      vacancies := vacancies + [pagePayload];
      pagesNumber := pagePayload.perPage;
      page := page + 1;
    }
  }

  /** `get_vacansies_sj`: the pages fetched for one language, in page order. */
  method GetVacanciesSj(fetch: nat -> SjPage, ghost stop: nat) returns (vacancies: seq<SjPage>)
    requires 1 <= stop && fetch(stop - 1).total <= stop
    ensures |vacancies| <= stop
    ensures forall i :: 0 <= i < |vacancies| ==> vacancies[i] == fetch(i)
    ensures StopsAfter(TotalBounds(vacancies))
  {
    var page := 0;
    var pagesNumber := 100;
    vacancies := [];
    while page < pagesNumber
      invariant page == |vacancies| <= stop
      invariant forall i :: 0 <= i < page ==> vacancies[i] == fetch(i)
      invariant forall i :: 0 <= i < page - 1 ==> i + 1 < vacancies[i].total
      invariant page == 0 ==> pagesNumber == 100
      invariant page > 0 ==> pagesNumber == vacancies[page - 1].total
      decreases stop - page
    {
      var pagePayload := fetch(page);
      vacancies := vacancies + [pagePayload];
      pagesNumber := pagePayload.total;
      page := page + 1;
    }
  }

  /** Of the prefixes of one stream of reported bounds, at most one describes a run of the loop. */
  lemma StopsAfterUnique(bounds: seq<int>, m: nat, n: nat)
    requires m <= n <= |bounds|
    requires StopsAfter(bounds[..m]) && StopsAfter(bounds[..n])
    ensures m == n
  {
  }

  /**
   * When every page reports the same bound b >= 1, the loop fetches exactly
   * b pages, whatever the number of matching vacancies: with HeadHunter's
   * `per_page` of 20 that is 20 pages.
   */
  lemma ConstantBoundFetchCount(bounds: seq<int>, b: int)
    requires b >= 1
    requires forall i :: 0 <= i < |bounds| ==> bounds[i] == b
    requires StopsAfter(bounds)
    ensures |bounds| == b
  {
    if |bounds| >= 2 {
      assert |bounds| - 1 < bounds[|bounds| - 2];
    }
  }
}
