/** The retry structure of the RecordOwl scrapers: an attempt loads the
    search page, waits for the company link and loads the company page; a
    failed load (or an exception whose message mentions a timeout) starts
    the whole sequence again from the search, and one counter bounds the
    retries of all these steps together.  What each attempt came to is an
    input: `attempts(j)` is the outcome of attempt `j`. */
module Retry {
  import opened Text

  /** `max_retries`: at most two retries, so at most three attempts. */
  const MaxRetries: nat := 2

  /** The outcome of one attempt. */
  datatype Attempt<P> =
    | SearchRaised                  // loading the search page raised
    | NoLink                        // no company link appeared in time
    | PageRaised(link: string)      // loading the company page raised
    | Crashed(msg: string)          // any other exception, with its message
    | Loaded(link: string, page: P) // the company page is loaded

  /** `"timeout" in str(e).lower()`. */
  predicate IsTimeout(msg: string) { Contains(Lower(msg), "timeout") }

  /** The outcomes that start a new attempt while retries remain: a missing
      company link never does, and another exception only on a timeout. */
  predicate Retryable<P>(a: Attempt<P>) {
    a.SearchRaised? || a.PageRaised? || (a.Crashed? && IsTimeout(a.msg))
  }

  /** `scrape_company(uen, name, retry)`: the attempt whose outcome is
      returned, starting from attempt `retry`. */
  function Decisive<P>(attempts: nat -> Attempt<P>, retry: nat): (k: nat)
    requires retry <= MaxRetries
    ensures retry <= k <= MaxRetries
    ensures forall j :: retry <= j < k ==> Retryable(attempts(j))
    ensures k < MaxRetries ==> !Retryable(attempts(k))
    ensures attempts(retry).NoLink? ==> k == retry
    ensures !Retryable(attempts(retry)) ==> k == retry
    ensures forall j :: retry <= j < k && attempts(j).Crashed? ==> IsTimeout(attempts(j).msg)
    decreases MaxRetries - retry
  {
    if retry < MaxRetries && Retryable(attempts(retry)) then Decisive(attempts, retry + 1) else retry
  }

  /** The decisive attempt is the first one that is not retried, or the
      third attempt when the first two are both retried. */
  lemma {:induction false} DecisiveUnique<P>(attempts: nat -> Attempt<P>, retry: nat, k: nat)
    requires retry <= k <= MaxRetries
    requires forall j :: retry <= j < k ==> Retryable(attempts(j))
    requires k < MaxRetries ==> !Retryable(attempts(k))
    ensures Decisive(attempts, retry) == k
    decreases k - retry
  {
    if retry < k {
      DecisiveUnique(attempts, retry + 1, k);
    }
  }
}
